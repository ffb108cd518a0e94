/**
 * Runs of a signal. A slot is any sequence of connects, disconnects and nested emissions, so a run
 * is a sequence of such events in which the loops of the emissions under way take turns as a stack.
 */
module SignalRuns {
  import opened Options
  import opened SignalFields
  import opened SignalLaws

  datatype Event<F> =
    | Connect(fn: F)
    | Disconnect(c: nat)
    | Begin    // operator() is called: the guard is built
    | Call     // the innermost loop calls its next slot; the slot before it has returned
    | End      // the innermost loop is over: the guard is destroyed

  /** An emission under way: its guard, its place in the list of slots and (history) the slots called. */
  datatype Frame<F> = Frame(outermost: bool, pos: nat, calls: seq<F>)

  /** The last frame is the innermost one. */
  datatype State<F> = State(sig: Fields<F>, frames: seq<Frame<F>>)

  function Top<F>(s: State<F>): Frame<F>
    requires s.frames != []
  {
    s.frames[|s.frames| - 1]
  }

  function Below<F>(s: State<F>): seq<Frame<F>>
    requires s.frames != []
  {
    s.frames[..|s.frames| - 1]
  }

  /** Events that cannot happen in the state change nothing. */
  function Step<F>(s: State<F>, e: Event<F>): State<F> {
    match e
    case Connect(fn) => s.(sig := Connected(s.sig, fn))
    case Disconnect(c) => if c < |s.sig.links| then s.(sig := Disconnected(s.sig, c)) else s
    case Begin => State(s.sig.(guard := true), s.frames + [Frame(!s.sig.guard, 0, [])])
    case Call =>
      if s.frames == [] || Top(s).pos >= |s.sig.slots| then s
      else s.(frames := Below(s) + [Frame(Top(s).outermost, Top(s).pos + 1,
          Top(s).calls + [s.sig.slots[Top(s).pos].fn])])
    case End =>
      if s.frames == [] || Top(s).pos < |s.sig.slots| then s
      else State(if Top(s).outermost then Flushed(s.sig) else s.sig, Below(s))
  }

  function Run<F>(trace: seq<Event<F>>): State<F> {
    if trace == [] then State(Fields([], [], [], false, [], 0), [])
    else Step(Run(trace[..|trace| - 1]), trace[|trace| - 1])
  }

  /** The connections made by a trace. */
  function Made<F>(trace: seq<Event<F>>): nat {
    if trace == [] then 0
    else Made(trace[..|trace| - 1]) + if trace[|trace| - 1].Connect? then 1 else 0
  }

  /** The reference: every connect and disconnect takes effect at once, whether or not there is an emission. */
  function Immediate<F>(trace: seq<Event<F>>): seq<Sub<F>> {
    if trace == [] then []
    else
      var before := Immediate(trace[..|trace| - 1]);
      match trace[|trace| - 1]
      case Connect(fn) => before + [Sub(Made(trace[..|trace| - 1]), fn)]
      case Disconnect(c) => Drop(before, c)
      case _ => before
  }

  // ---- runs ----

  function Fns<F>(list: seq<Sub<F>>): (fs: seq<F>)
    ensures |fs| == |list| && forall i :: 0 <= i < |fs| ==> fs[i] == list[i].fn
  {
    seq(|list|, i requires 0 <= i < |list| => list[i].fn)
  }

  /** Every emission under way has called the first `pos` slots of the list, in order. */
  ghost predicate FramesOk<F>(s: State<F>) {
    && (s.sig.guard <==> s.frames != [])
    && forall i :: 0 <= i < |s.frames| ==>
         && (s.frames[i].outermost <==> i == 0)
         && s.frames[i].pos <= |s.sig.slots|
         && s.frames[i].calls == Fns(Subs(s.sig.slots))[..s.frames[i].pos]
  }

  ghost predicate Good<F>(s: State<F>) {
    Inv(s.sig) && FramesOk(s)
  }

  lemma StepKeepsInv<F>(s: State<F>, e: Event<F>)
    requires Good(s)
    ensures Inv(Step(s, e).sig)
  {
    match e
    case Connect(fn) => ConnectKeepsInv(s.sig, fn);
    case Disconnect(c) => if c < |s.sig.links| { DisconnectKeepsInv(s.sig, c); }
    case End => FlushKeepsInv(s.sig);
    case _ =>
  }

  /** During an emission nothing but its end changes the list of slots. */
  lemma SlotsStay<F>(s: State<F>, e: Event<F>)
    requires Good(s) && Step(s, e).frames != []
    ensures Step(s, e).sig.slots == s.sig.slots
  {
  }

  lemma StepKeepsFrames<F>(s: State<F>, e: Event<F>)
    requires Good(s)
    ensures FramesOk(Step(s, e))
  {
    var s' := Step(s, e);
    if s.frames != [] && s'.frames != [] { SlotsStay(s, e); }
    if e.Call? && s.frames != [] && Top(s).pos < |s.sig.slots| {
      var fns := Fns(Subs(s.sig.slots));
      assert fns[..Top(s).pos] + [fns[Top(s).pos]] == fns[..Top(s).pos + 1];
    }
  }

  lemma {:induction false} RunIsGood<F>(trace: seq<Event<F>>)
    ensures Good(Run(trace)) && |Run(trace).sig.links| == Made(trace)
  {
    if trace != [] {
      var n := |trace| - 1;
      RunIsGood(trace[..n]);
      StepKeepsInv(Run(trace[..n]), trace[n]);
      StepKeepsFrames(Run(trace[..n]), trace[n]);
    }
  }

  /**
   * Deferral refines immediate update: after every trace, the slots not pending deletion followed by
   * those pending addition are what applying every operation at once, in program order, gives.
   */
  lemma {:induction false} DeferralRefinesImmediate<F>(trace: seq<Event<F>>)
    ensures Live(Run(trace).sig) == Immediate(trace)
  {
    if trace != [] {
      var n := |trace| - 1;
      var s := Run(trace[..n]);
      RunIsGood(trace[..n]);
      DeferralRefinesImmediate(trace[..n]);
      match trace[n]
      case Connect(fn) => ConnectAdds(s.sig, fn);
      case Disconnect(c) =>
        if c < |s.sig.links| { DisconnectDrops(s.sig, c); } else { ClosedIsNotLive(s.sig, c); }
      case End => FlushKeepsLive(s.sig, Flushed(s.sig));
      case _ =>
    }
  }

  /** The connects and disconnects among the events, applied at once; `made` connections exist already. */
  function Applied<F>(subs: seq<Sub<F>>, made: nat, es: seq<Event<F>>): seq<Sub<F>>
    decreases |es|
  {
    if es == [] then subs
    else
      match es[0]
      case Connect(fn) => Applied(subs + [Sub(made, fn)], made + 1, es[1..])
      case Disconnect(c) => Applied(Drop(subs, c), made, es[1..])
      case _ => Applied(subs, made, es[1..])
  }

  lemma {:induction false} ImmediateApplies<F>(trace: seq<Event<F>>, es: seq<Event<F>>, later: seq<Event<F>>)
    requires later == trace + es
    ensures Immediate(later) == Applied(Immediate(trace), Made(trace), es)
    decreases |es|
  {
    if es == [] {
      assert later == trace;
    } else {
      var next := trace + [es[0]];
      assert next[..|next| - 1] == trace;
      assert later == next + es[1..];
      ImmediateApplies(next, es[1..], later);
    }
  }

  /** What is connected after more events is what they make of what was connected before. */
  lemma ChangesApply<F>(trace: seq<Event<F>>, es: seq<Event<F>>, later: seq<Event<F>>)
    requires later == trace + es
    ensures Live(Run(later).sig) == Applied(Live(Run(trace).sig), |Run(trace).sig.links|, es)
  {
    RunIsGood(trace);
    DeferralRefinesImmediate(trace);
    DeferralRefinesImmediate(later);
    ImmediateApplies(trace, es, later);
  }

  /** Whenever no emission is under way the list of slots is the result of all operations in order. */
  lemma QuietSlots<F>(trace: seq<Event<F>>)
    requires Run(trace).frames == []
    ensures Subs(Run(trace).sig.slots) == Immediate(trace)
    ensures Run(trace).sig.toAdd == [] && Run(trace).sig.toDelete == []
  {
    RunIsGood(trace);
    DeferralRefinesImmediate(trace);
    KeepAll(Run(trace).sig.slots, []);
  }

  /** `inside` happens within one outermost emission, which begins right after `before`. */
  ghost predicate WithinOne<F>(before: seq<Event<F>>, inside: seq<Event<F>>) {
    && Run(before).frames == []
    && forall j :: 0 < j <= |inside| ==> Run(before + inside[..j]).frames != []
  }

  lemma RunStep<F>(trace: seq<Event<F>>, most: seq<Event<F>>, e: Event<F>)
    requires trace == most + [e]
    ensures Run(trace) == Step(Run(most), e)
  {
    assert trace[..|trace| - 1] == most;
  }

  lemma SlotsStayOnce<F>(trace: seq<Event<F>>, most: seq<Event<F>>, e: Event<F>)
    requires trace == most + [e] && Run(trace).frames != []
    ensures Run(trace).sig.slots == Run(most).sig.slots
  {
    RunIsGood(most);
    RunStep(trace, most, e);
    SlotsStay(Run(most), e);
  }

  lemma SlotsStayNext<F>(before: seq<Event<F>>, inside: seq<Event<F>>, n: nat)
    requires WithinOne(before, inside) && n < |inside|
    ensures Run(before + inside[..n + 1]).sig.slots == Run(before + inside[..n]).sig.slots
  {
    assert before + inside[..n + 1] == before + inside[..n] + [inside[n]];
    SlotsStayOnce(before + inside[..n + 1], before + inside[..n], inside[n]);
  }

  lemma {:induction false} SlotsFixed<F>(before: seq<Event<F>>, inside: seq<Event<F>>, n: nat)
    requires WithinOne(before, inside) && n <= |inside|
    ensures Run(before + inside[..n]).sig.slots == Run(before).sig.slots
  {
    if n == 0 {
      assert before + inside[..0] == before;
    } else {
      SlotsFixed(before, inside, n - 1);
      SlotsStayNext(before, inside, n - 1);
    }
  }

  lemma AfterBegin<F>(trace: seq<Event<F>>, sig: Fields<F>, frames: seq<Frame<F>>)
    requires Run(trace) == State(sig, frames)
    ensures Run(trace + [Begin]) == State(sig.(guard := true), frames + [Frame(!sig.guard, 0, [])])
  {
    RunStep(trace + [Begin], trace, Begin);
  }

  /** The innermost loop calls its next slot. */
  lemma AfterCall<F>(trace: seq<Event<F>>, sig: Fields<F>, below: seq<Frame<F>>, f: Frame<F>)
    requires Run(trace) == State(sig, below + [f]) && f.pos < |sig.slots|
    ensures Run(trace + [Call]) == State(sig, below + [Frame(f.outermost, f.pos + 1, f.calls + [sig.slots[f.pos].fn])])
  {
    RunStep(trace + [Call], trace, Call);
    assert Top(State(sig, below + [f])) == f && Below(State(sig, below + [f])) == below;
  }

  /** The innermost loop is over. */
  lemma AfterEnd<F>(trace: seq<Event<F>>, sig: Fields<F>, below: seq<Frame<F>>, f: Frame<F>)
    requires Run(trace) == State(sig, below + [f]) && f.pos == |sig.slots|
    ensures Run(trace + [End]) == State(if f.outermost then Flushed(sig) else sig, below)
  {
    RunStep(trace + [End], trace, End);
    assert Top(State(sig, below + [f])) == f && Below(State(sig, below + [f])) == below;
  }

  /** A loop ends when it has called all slots, and has a next slot to call until then. */
  lemma LoopTurns<F>(s: State<F>, snapshot: seq<F>)
    requires FramesOk(s) && s.frames != [] && snapshot == Fns(Subs(s.sig.slots))
    ensures |Step(s, End).frames| < |s.frames| <==> Top(s).calls == snapshot
    ensures Step(s, Call) != s <==> Top(s).calls < snapshot
  {
    var n := Top(s).pos;
    assert Top(s).calls == snapshot[..n];
    if n < |snapshot| {
      assert Top(Step(s, Call)).pos == n + 1;
    } else {
      assert snapshot[..n] == snapshot;
    }
  }

  /**
   * Every emission, however nested, has called exactly the slots that were connected when the
   * outermost one began, in order, up to its place; it ends when it has called them all.
   */
  lemma EmissionCallsSnapshot<F>(before: seq<Event<F>>, inside: seq<Event<F>>, i: nat)
    requires WithinOne(before, inside) && i < |Run(before + inside).frames|
    ensures var s, snapshot := Run(before + inside), Fns(Immediate(before));
            && s.frames[i].pos <= |snapshot| && s.frames[i].calls == snapshot[..s.frames[i].pos]
            && (|Step(s, End).frames| < |s.frames| <==> Top(s).calls == snapshot)
            && (Step(s, Call) != s <==> Top(s).calls < snapshot)
  {
    SlotsFixed(before, inside, |inside|);
    assert inside[..|inside|] == inside;
    QuietSlots(before);
    RunIsGood(before + inside);
    LoopTurns(Run(before + inside), Fns(Immediate(before)));
  }

  /** Connection `c` names the entry at place `i` of the slots, which is not to be deleted. */
  ghost predicate NamesSlot<F>(s: Fields<F>, c: nat, i: nat) {
    && c < |s.links| && i < |s.slots| && s.slots[i].conn == c
    && s.links[c].id == Some(s.slots[i].id) && s.links[c].tmp == None && s.slots[i].id !in s.toDelete
  }

  /** Connection `c` names the entry at place `i` of those that wait. */
  ghost predicate NamesWaiting<F>(s: Fields<F>, c: nat, i: nat) {
    && c < |s.links| && i < |s.toAdd| && s.toAdd[i].conn == c
    && s.links[c].id == None && s.links[c].tmp == Some(s.toAdd[i].id)
  }

  /** A connection is valid exactly if it names a live entry, and then that is the only one of its own. */
  lemma HandlesNeverDangle<F>(trace: seq<Event<F>>, c: nat)
    requires c < |Run(trace).sig.links|
    ensures var s := Run(trace).sig;
            && (!s.links[c].closed <==>
                  (exists i: nat :: NamesSlot(s, c, i)) || (exists i: nat :: NamesWaiting(s, c, i)))
            && (forall i, j: nat :: NamesSlot(s, c, i) ==> !NamesWaiting(s, c, j))
            && (forall i, j: nat :: NamesSlot(s, c, i) && NamesSlot(s, c, j) ==> i == j)
            && (forall i, j: nat :: NamesWaiting(s, c, i) && NamesWaiting(s, c, j) ==> i == j)
  {
    RunIsGood(trace);
    var s := Run(trace).sig;
    if !s.links[c].closed {
      OpenEntry(s, c);
      if s.links[c].id.Some? {
        var i: nat :| i < |s.slots| && s.slots[i].id == s.links[c].id.value;
        assert NamesSlot(s, c, i);
      } else {
        var i: nat :| i < |s.toAdd| && s.toAdd[i].id == s.links[c].tmp.value;
        assert NamesWaiting(s, c, i);
      }
    }
  }

  /**
   * Every erase meets a live entry: the k-th of the outermost guard finds its entry still in the
   * list, and a disconnect outside of an emission never erases the end iterator.
   */
  lemma ErasesHit<F>(trace: seq<Event<F>>, k: nat, c: nat)
    ensures var s := Run(trace).sig;
            && (k < |s.toDelete| ==> HasId(EraseAll(s.slots, s.toDelete[..k]), s.toDelete[k]))
            && (c < |s.links| && !s.links[c].closed && !s.guard ==>
                  s.links[c].id.Some? && HasId(s.slots, s.links[c].id.value))
            && (c < |s.links| && !s.links[c].closed && s.links[c].tmp.Some? ==> HasId(s.toAdd, s.links[c].tmp.value))
  {
    RunIsGood(trace);
    var s := Run(trace).sig;
    if c < |s.links| && !s.links[c].closed { OpenEntry(s, c); }
    if k < |s.toDelete| {
      var gone := s.toDelete[..k];
      EraseAllKeeps(s.slots, gone);
      KeepMembers(s.slots, gone);
      assert HasId(s.slots, s.toDelete[k]);
      var i :| 0 <= i < |s.slots| && s.slots[i].id == s.toDelete[k];
      assert s.slots[i] in Keep(s.slots, gone);
    }
  }
}
