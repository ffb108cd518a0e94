/**
 * The calls on the tagged stack, put in one order: every call makes exactly one operation on the
 * abstract stack between its first and its last step, and returns what that operation returned.
 */
module StackHistory {
  import opened Options
  import opened StackSteps

  /** What thread `t` contributed to a history. */
  function Of<X>(t: nat, h: seq<By<X>>): seq<X> {
    if h == [] then []
    else Of(t, h[..|h| - 1]) + if h[|h| - 1].thread == t then [h[|h| - 1].what] else []
  }

  lemma OfMore<X>(t: nat, h: seq<By<X>>, b: By<X>)
    ensures Of(t, h + [b]) == Of(t, h) + if b.thread == t then [b.what] else []
  {
    assert (h + [b])[..|h + [b]| - 1] == h;
  }

  function RequestOf<T>(op: Operation<T>): Request<T> {
    if op.Pushed? then PushCall(op.v) else PopCall
  }

  function RequestsOf<T>(ops: seq<Operation<T>>): (rs: seq<Request<T>>)
    ensures |rs| == |ops| && forall i :: 0 <= i < |ops| ==> rs[i] == RequestOf(ops[i])
  {
    seq(|ops|, i requires 0 <= i < |ops| => RequestOf(ops[i]))
  }

  /** The call that the thread has made and whose operation is still to come. */
  function Open<T>(th: Thread<T>): seq<Request<T>> {
    if th.PushLoad? || th.PushNew? || th.PushTag? || th.PushLink? || th.PushCas? then [PushCall(th.v)]
    else if th.PopLoad? || th.PopRead? || th.PopCas? then [PopCall]
    else []
  }

  /** The abstract stack after the operations of the log. */
  function Replay<T>(log: seq<By<Operation<T>>>): seq<T> {
    if log == [] then []
    else
      var before := Replay(log[..|log| - 1]);
      match log[|log| - 1].what
      case Pushed(v) => [v] + before
      case TookOff(_) => Rest(before)
  }

  /** Every operation of the log returns what the abstract stack gives at its place. */
  ghost predicate Legal<T>(log: seq<By<Operation<T>>>) {
    forall i :: 0 <= i < |log| ==> GivesTop(log, i)
  }

  ghost predicate GivesTop<T>(log: seq<By<Operation<T>>>, i: nat)
    requires i < |log|
  {
    log[i].what.TookOff? ==> log[i].what.res == Top(Replay(log[..i]))
  }

  /** What the thread is going to return, or has returned, is what its last operation gave. */
  ghost predicate DueIsLogged<T>(log: seq<By<Operation<T>>>, t: nat, th: Thread<T>) {
    th.PopTake? || th.PopFree? || th.Popped? ==>
      var ops := Of(t, log);
      ops != [] && ops[|ops| - 1] == TookOff(th.due)
  }

  ghost predicate Matched<T>(s: State<T>, t: nat)
    requires t < |s.threads|
  {
    Of(t, s.begun) == RequestsOf(Of(t, s.log)) + Open(s.threads[t]) && DueIsLogged(s.log, t, s.threads[t])
  }

  ghost predicate HistoryOk<T>(s: State<T>) {
    && Legal(s.log) && Replay(s.log) == s.spec
    && forall t: nat :: t < |s.threads| ==> Matched(s, t)
  }

  /** What a step adds to the histories. */
  ghost predicate Adds<T>(s: State<T>, t: nat, s': State<T>)
    requires t < |s.threads|
  {
    && |s'.threads| == |s.threads| && s'.threads == s.threads[t := s'.threads[t]]
    && var th, th' := s.threads[t], s'.threads[t];
       || (s'.begun == s.begun && s'.log == s.log && s'.spec == s.spec && Open(th') == Open(th)
           && (th'.PopTake? || th'.PopFree? || th'.Popped? ==>
                 (th.PopTake? || th.PopFree? || th.Popped?) && th'.due == th.due))
       || (Open(th) == [] && |Open(th')| == 1 && s'.begun == s.begun + [By(t, Open(th')[0])]
           && s'.log == s.log && s'.spec == s.spec)
       || (th.PushCas? && th' == Idle && s'.begun == s.begun && s'.log == s.log + [By(t, Pushed(th.v))]
           && s'.spec == [th.v] + s.spec)
       || (Open(th) == [PopCall] && (th'.PopTake? || th'.Popped?) && th'.due == Top(s.spec)
           && s'.begun == s.begun && s'.log == s.log + [By(t, TookOff(Top(s.spec)))] && s'.spec == Rest(s.spec))
  }

  lemma StepAdds<T>(s: State<T>, t: nat, ch: Choice<T>)
    requires t < |s.threads|
    ensures Adds(s, t, Do(s, t, ch))
  {
  }

  lemma ReplayMore<T>(log: seq<By<Operation<T>>>, b: By<Operation<T>>)
    requires Legal(log) && (b.what.TookOff? ==> b.what.res == Top(Replay(log)))
    ensures Legal(log + [b])
    ensures Replay(log + [b]) == if b.what.Pushed? then [b.what.v] + Replay(log) else Rest(Replay(log))
  {
    var log' := log + [b];
    assert log'[..|log'| - 1] == log;
    forall i | 0 <= i < |log'| ensures GivesTop(log', i) {
      if i < |log| {
        assert GivesTop(log, i) && log'[..i] == log[..i];
      }
    }
  }

  lemma OthersStayMatched<T>(s: State<T>, t: nat, s': State<T>, u: nat)
    requires t < |s.threads| && Adds(s, t, s') && u < |s.threads| && u != t && Matched(s, u)
    ensures Matched(s', u)
  {
    if |s'.begun| > |s.begun| { OfMore(u, s.begun, s'.begun[|s.begun|]); }
    if |s'.log| > |s.log| { OfMore(u, s.log, s'.log[|s.log|]); }
  }

  lemma StepperStaysMatched<T>(s: State<T>, t: nat, s': State<T>)
    requires t < |s.threads| && Adds(s, t, s') && Matched(s, t)
    ensures Matched(s', t)
  {
    hide Of;
    if |s'.begun| > |s.begun| {
      OfMore(t, s.begun, s'.begun[|s.begun|]);
    } else if |s'.log| > |s.log| {
      var b := s'.log[|s.log|];
      OfMore(t, s.log, b);
      assert RequestsOf(Of(t, s.log) + [b.what]) == RequestsOf(Of(t, s.log)) + [RequestOf(b.what)];
    }
  }

  lemma StepKeepsHistory<T>(s: State<T>, t: nat, ch: Choice<T>)
    requires HistoryOk(s) && t < |s.threads|
    ensures HistoryOk(Do(s, t, ch))
  {
    hide Adds, Matched, Legal, Do;
    var s' := Do(s, t, ch);
    StepAdds(s, t, ch);
    AddsReplay(s, t, s');
    forall u: nat | u < |s'.threads| ensures Matched(s', u) {
      if u == t { StepperStaysMatched(s, t, s'); } else { OthersStayMatched(s, t, s', u); }
    }
  }

  lemma AddsReplay<T>(s: State<T>, t: nat, s': State<T>)
    requires t < |s.threads| && Adds(s, t, s') && Legal(s.log) && Replay(s.log) == s.spec
    ensures Legal(s'.log) && Replay(s'.log) == s'.spec && |s'.threads| == |s.threads|
  {
    if |s'.log| > |s.log| { ReplayMore(s.log, s'.log[|s.log|]); }
  }

  lemma {:induction false} RunKeepsHistory<T(!new)>(run: seq<State<T>>, k: nat)
    requires IsRun(run) && k < |run|
    ensures HistoryOk(run[k])
  {
    if k > 0 {
      RunKeepsHistory(run, k - 1);
      assert Next(run[k - 1], run[k - 1 + 1]);
      var t: nat, ch :| t < |run[k - 1].threads| && run[k] == Do(run[k - 1], t, ch);
      StepKeepsHistory(run[k - 1], t, ch);
    }
  }

  // ---- what users may rely on ----

  /**
   * The log is a history of one stack used in some order: every operation returns what the stack holds at
   * its place, and the values that remain are those in the list in memory.
   */
  lemma LogIsAStack<T(!new)>(run: seq<State<T>>, k: nat)
    requires IsRun(run) && k < |run|
    ensures Legal(run[k].log) && Lists(run[k].cells, run[k].head, Replay(run[k].log))
  {
    RunKeepsHistory(run, k);
    MemoryIsStack(run, k);
  }

  /**
   * The calls a thread has made are those of its operations in the log, in order, and at most one more, which
   * is still in progress: no call returns without its operation, and none makes two.
   */
  lemma OneOperationPerCall<T(!new)>(run: seq<State<T>>, k: nat, t: nat)
    requires IsRun(run) && k < |run| && t < |run[k].threads|
    ensures Of(t, run[k].begun) == RequestsOf(Of(t, run[k].log)) + Open(run[k].threads[t])
  {
    RunKeepsHistory(run, k);
    assert Matched(run[k], t);
  }

  /** A pop that has returned has returned the result of its operation, the last one of its thread. */
  lemma PopReturnsLoggedResult<T(!new)>(run: seq<State<T>>, k: nat, t: nat)
    requires IsRun(run) && k < |run| && t < |run[k].threads| && run[k].threads[t].Popped?
    ensures var ops := Of(t, run[k].log);
            ops != [] && ops[|ops| - 1] == TookOff(run[k].threads[t].res)
  {
    RunKeepsHistory(run, k);
    assert Matched(run[k], t);
    PopReturnsItsDue(run, k, t);
  }

  // ---- a thread that is not disturbed ----

  predicate InCall<T>(th: Thread<T>) {
    !th.Idle? && !th.Popped?
  }

  /** How many more steps the call of a thread takes when nobody else moves. */
  function StepsLeft<T>(s: State<T>, th: Thread<T>): nat {
    match th
    case PushLoad(_) => 5
    case PushNew(_, prev) => if prev == s.head then 4 else 6
    case PushTag(_, prev, _) => if prev == s.head then 3 else 5
    case PushLink(_, prev, _) => if prev == s.head then 2 else 4
    case PushCas(_, prev, _) => if prev == s.head then 1 else 3
    case PopLoad => 5
    case PopRead(prev) => if prev == s.head then 4 else 6
    case PopCas(prev, _) => if prev == s.head then 3 else 5
    case PopTake(_, _) => 2
    case PopFree(_, _, _) => 1
    case _ => 0
  }

  /** Neither a spurious failure nor a bad address. */
  predicate Serves<T>(s: State<T>, ch: Choice<T>) {
    !ch.spurious && ch.addr != 0 && ch.addr !in s.cells
  }

  /** Only thread `t` moves, inside one call. */
  ghost predicate AloneInCall<T(!new)>(path: seq<State<T>>, t: nat) {
    && |path| > 0
    && (forall k :: 0 <= k < |path| ==> t < |path[k].threads|)
    && forall k :: 0 <= k < |path| - 1 ==> InCall(path[k].threads[t]) && MovesTo(path[k], t, path[k + 1])
  }

  ghost predicate MovesTo<T(!new)>(s: State<T>, t: nat, s': State<T>) {
    t < |s.threads| && exists ch :: Serves(s, ch) && s' == Do(s, t, ch)
  }

  lemma StepCountsDown<T>(s: State<T>, t: nat, ch: Choice<T>)
    requires t < |s.threads| && InCall(s.threads[t]) && Serves(s, ch)
    ensures StepsLeft(Do(s, t, ch), Do(s, t, ch).threads[t]) < StepsLeft(s, s.threads[t]) <= 6
  {
  }

  /** A thread that nobody disturbs finishes its call within six steps, wherever it stands. */
  lemma {:induction false} AloneFinishes<T(!new)>(path: seq<State<T>>, t: nat)
    requires AloneInCall(path, t)
    ensures |path| - 1 <= StepsLeft(path[0], path[0].threads[t]) <= 6
    decreases |path|
  {
    if |path| > 1 {
      assert MovesTo(path[0], t, path[0 + 1]);
      var ch :| Serves(path[0], ch) && path[1] == Do(path[0], t, ch);
      StepCountsDown(path[0], t, ch);
      var rest := path[1..];
      forall k | 0 <= k < |rest| - 1 ensures InCall(rest[k].threads[t]) && MovesTo(rest[k], t, rest[k + 1]) {
        assert MovesTo(path[k + 1], t, path[k + 1 + 1]);
      }
      AloneFinishes(rest, t);
    }
  }
}
