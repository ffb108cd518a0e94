/** The signal: connections made and undone during an emission wait until the outermost one ends. */
module Signals {
  import opened Options
  import opened SignalFields
  import opened SignalLaws
  import opened SignalRuns

  /** What a slot does to the signal while it is called. */
  datatype Body<F> = Body(actions: seq<Action<F>>)

  datatype Action<F> =
    | Join(fn: F)                      // connect
    | Quit(c: nat)                     // disconnect a connection
    | Emit(bodies: seq<Body<F>>)       // emit; the i-th slot called does the i-th body

  /** What happens when a slot makes the call `a` while the signal has `n` slots. */
  function EventsOf<F>(a: Action<F>, n: nat): seq<Event<F>>
    decreases a, n + 1
  {
    match a
    case Join(fn) => [Event.Connect(fn)]
    case Quit(c) => [Event.Disconnect(c)]
    case Emit(bodies) => [Begin] + SlotEvents(a, n, n) + [End]
  }

  /** The first `i` slots are called, each followed by what it does. */
  function SlotEvents<F>(a: Action<F>, n: nat, i: nat): seq<Event<F>>
    requires a.Emit?
    decreases a, i
  {
    if i == 0 then [] else SlotEvents(a, n, i - 1) + OneSlot(a, n, i - 1)
  }

  /** The slot at place `i` is called and does the i-th body, or nothing. */
  function OneSlot<F>(a: Action<F>, n: nat, i: nat): seq<Event<F>>
    requires a.Emit?
    decreases a, i
  {
    [Event.Call] + if i < |a.bodies| then BodyEvents(a.bodies[i], n, |a.bodies[i].actions|) else []
  }

  /** The first `k` calls of a slot. */
  function BodyEvents<F>(b: Body<F>, n: nat, k: nat): seq<Event<F>>
    requires k <= |b.actions|
    decreases b, k
  {
    if k == 0 then [] else BodyEvents(b, n, k - 1) + EventsOf(b.actions[k - 1], n)
  }

  class Signal<F> {
    var slots: seq<Entry<F>>
    var toAdd: seq<Entry<F>>
    var toDelete: seq<nat>
    var guard: bool
    var links: seq<Link>
    var nextId: nat

    function Contents(): Fields<F>
      reads this
    {
      Fields(slots, toAdd, toDelete, guard, links, nextId)
    }

    ghost predicate Valid()
      reads this
    {
      Inv(Contents())
    }

    constructor ()
      ensures Valid() && Contents() == Run<F>([]).sig
    {
      slots, toAdd, toDelete, guard, links, nextId := [], [], [], false, [], 0;
    }

    method Empty() returns (e: bool)
      ensures e <==> Contents().slots == []
    {
      e := |slots| == 0;
    }

    /** The new connection is the last of the live ones, and open; an emission under way does not see it. */
    method Connect(fn: F) returns (c: nat)
      requires Valid()
      modifies this
      ensures Valid() && Contents() == Connected(old(Contents()), fn)
      ensures Live(Contents()) == old(Live(Contents())) + [Sub(c, fn)]
      ensures c == old(|links|) && |links| == c + 1 && links[..c] == old(links) && !links[c].closed
      ensures guard == old(guard) && (guard ==> slots == old(slots))
    {
      ConnectKeepsInv(Contents(), fn);
      ConnectAdds(Contents(), fn);
      c := |links|;
      if guard {
        toAdd := toAdd + [Entry(nextId, c, fn)];
        links := links + [Link(None, Some(nextId), false)];
      } else {
        slots := slots + [Entry(nextId, c, fn)];
        links := links + [Link(Some(nextId), None, false)];
      }
      nextId := nextId + 1;
    }

    /** The connection is not among the live ones any more; an emission under way does not see it leave. */
    method Disconnect(c: nat)
      requires Valid() && c < |links|
      modifies this
      ensures Valid() && Contents() == Disconnected(old(Contents()), c)
      ensures Live(Contents()) == Drop(old(Live(Contents())), c)
      ensures |links| == old(|links|) && links[c].closed
      ensures forall d :: 0 <= d < |links| && d != c ==> links[d] == old(links[d])
      ensures guard == old(guard) && (guard ==> slots == old(slots))
    {
      DisconnectKeepsInv(Contents(), c);
      DisconnectDrops(Contents(), c);
      ghost var after := Disconnected(Contents(), c);
      if !links[c].closed {
        OpenEntry(Contents(), c);
        if guard {
          if links[c].id.Some? { toDelete := toDelete + [links[c].id.value]; }
          if links[c].tmp.Some? { toAdd := Erase(toAdd, links[c].tmp.value); }
        } else {
          slots := Erase(slots, links[c].id.value);
        }
        links := links[c := links[c].(closed := true)];
      }
      assert Contents() == after;
    }

    /** The constructor of slot_guard. */
    method Enter() returns (outermost: bool)
      modifies this
      ensures outermost == !old(guard) && Contents() == old(Contents()).(guard := true)
    {
      outermost := !guard;
      guard := true;
    }

    /** The destructor of slot_guard. */
    method Leave(outermost: bool)
      modifies this
      ensures Contents() == if outermost then Flushed(old(Contents())) else old(Contents())
    {
      if outermost {
        guard := false;
        FlushDeletes();
        FlushAdds();
      }
    }

    method FlushDeletes()
      modifies this`slots, this`toDelete
      ensures toDelete == [] && slots == EraseAll(old(slots), old(toDelete))
    {
      var k := 0;
      while k < |toDelete|
        modifies this`slots
        invariant k <= |toDelete| && slots == EraseAll(old(slots), toDelete[..k])
      {
        slots := Erase(slots, toDelete[k]);
        k := k + 1;
        assert toDelete[..k][..k - 1] == toDelete[..k - 1];
      }
      assert toDelete[..k] == toDelete;
      toDelete := [];
    }

    method FlushAdds()
      modifies this`slots, this`toAdd, this`links, this`nextId
      ensures toAdd == [] && slots == old(slots) + Moved(old(toAdd), old(nextId))
      ensures links == SetIds(old(links), old(toAdd), old(nextId)) && nextId == old(nextId) + |old(toAdd)|
    {
      var k := 0;
      while k < |toAdd|
        modifies this`slots, this`links, this`nextId
        invariant k <= |toAdd| && nextId == old(nextId) + k
        invariant slots == old(slots) + Moved(toAdd[..k], old(nextId))
        invariant links == SetIds(old(links), toAdd[..k], old(nextId))
      {
        slots := slots + [Entry(nextId, toAdd[k].conn, toAdd[k].fn)];
        links := SetId(links, toAdd[k].conn, nextId);
        nextId := nextId + 1;
        k := k + 1;
        assert toAdd[..k][..k - 1] == toAdd[..k - 1];
        assert Moved(toAdd[..k], old(nextId)) == Moved(toAdd[..k - 1], old(nextId)) + [Entry(nextId - 1,
            toAdd[k - 1].conn, toAdd[k - 1].fn)];
      }
      assert toAdd[..k] == toAdd;
      toAdd := [];
    }

    // ---- slots that use the signal ----

    /** The signal is where `trace` leads, with the emissions `frames` under way. */
    ghost predicate At(trace: seq<Event<F>>, frames: seq<Frame<F>>)
      reads this
    {
      Run(trace) == State(Contents(), frames)
    }

    method Act(a: Action<F>, ghost trace: seq<Event<F>>, ghost frames: seq<Frame<F>>)
      returns (ghost later: seq<Event<F>>)
      requires At(trace, frames)
      modifies this
      ensures At(later, frames) && later == trace + EventsOf(a, |old(slots)|)
      ensures old(guard) ==> guard && slots == old(slots)
      decreases a, 2
    {
      hide Run;
      match a
      case Join(fn) =>
        RunIsGood(trace);
        var c := Connect(fn);
        later := trace + [Event.Connect(fn)];
        RunStep(later, trace, Event.Connect(fn));
      case Quit(c) =>
        RunIsGood(trace);
        if c < |links| { Disconnect(c); }
        later := trace + [Event.Disconnect(c)];
        RunStep(later, trace, Event.Disconnect(c));
      case Emit(_) =>
        var calls;
        calls, later := Call(a, trace, frames);
    }

    /** A slot, called by an emission under way, does what `body` says. */
    method Execute(body: Body<F>, ghost trace: seq<Event<F>>, ghost frames: seq<Frame<F>>)
      returns (ghost later: seq<Event<F>>)
      requires guard && At(trace, frames)
      modifies this
      ensures At(later, frames) && later == trace + BodyEvents(body, |old(slots)|, |body.actions|)
      ensures guard && slots == old(slots)
      decreases body
    {
      hide Run;
      later := trace;
      for k := 0 to |body.actions|
        invariant At(later, frames) && later == trace + BodyEvents(body, |slots|, k)
        invariant guard && slots == old(slots)
      {
        later := Act(body.actions[k], later, frames);
      }
    }

    /** The loop of the innermost emission `f` calls the slot at place `i`. */
    method CallSlot(e: Action<F>, i: nat, ghost trace: seq<Event<F>>, ghost below: seq<Frame<F>>, ghost f: Frame<F>)
      returns (fn: F, ghost later: seq<Event<F>>)
      requires e.Emit? && guard && f.pos == i < |slots| && At(trace, below + [f])
      modifies this
      ensures fn == old(slots)[i].fn && guard && slots == old(slots)
      ensures At(later, below + [Frame(f.outermost, i + 1, f.calls + [fn])])
      ensures later == trace + OneSlot(e, |old(slots)|, i)
      decreases e, 0
    {
      hide Run;
      AfterCall(trace, Contents(), below, f);
      fn, later := slots[i].fn, trace + [Event.Call];
      if i < |e.bodies| { later := Execute(e.bodies[i], later, below + [Frame(f.outermost, i + 1, f.calls + [fn])]); }
    }

    /**
     * operator(): calls the slots one after the other. What the i-th one does is the i-th body of `e`, or
     * nothing; `calls` are the slots called. All that happens is that, in this order; and what is connected
     * afterwards is what its connects and disconnects make of what was, each at once and in program order.
     */
    method Call(e: Action<F>, ghost trace: seq<Event<F>>, ghost frames: seq<Frame<F>>)
      returns (calls: seq<F>, ghost later: seq<Event<F>>)
      requires e.Emit? && At(trace, frames)
      modifies this
      ensures calls == Fns(Subs(old(slots)))
      ensures At(later, frames) && later == trace + EventsOf(e, |old(slots)|)
      ensures Live(Contents()) == Applied(old(Live(Contents())), |old(links)|, EventsOf(e, |old(slots)|))
      ensures old(guard) ==> guard && slots == old(slots)
      decreases e, 1
    {
      hide Run, Live, Applied;
      AfterBegin(trace, Contents(), frames);
      var outermost := Enter();
      calls, later := [], trace + [Begin];
      for i := 0 to |slots|
        invariant slots == old(slots) && guard && calls == Fns(Subs(slots))[..i]
        invariant At(later, frames + [Frame(outermost, i, calls)])
        invariant later == trace + ([Begin] + SlotEvents(e, |slots|, i))
      {
        var fn;
        fn, later := CallSlot(e, i, later, frames, Frame(outermost, i, calls));
        calls := calls + [fn];
      }
      AfterEnd(later, Contents(), frames, Frame(outermost, |slots|, calls));
      Leave(outermost);
      later := later + [End];
      assert later == trace + EventsOf(e, |old(slots)|);
      ChangesApply(trace, EventsOf(e, |old(slots)|), later);
    }
  }
}
