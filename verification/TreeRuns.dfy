/** What every state of every interleaving of the tree pool satisfies. */
module TreeRuns {
  import opened Options
  import opened Sums
  import opened Slots
  import opened TreeArena
  import opened TreeSteps

  function SizeOff(ts: seq<Thread>, n: nat): (s: seq<nat>)
    ensures |s| == n && forall c :: 0 <= c < n ==> s[c] == Tally(ts, Reserved, c) + Tally(ts, Credit, c)
  {
    seq(n, c requires 0 <= c < n => Tally(ts, Reserved, c) + Tally(ts, Credit, c))
  }

  function CapOff(ts: seq<Thread>, n: nat): (s: seq<nat>)
    ensures |s| == n && forall c :: 0 <= c < n ==> s[c] == Tally(ts, CapCredit, c)
  {
    seq(n, c requires 0 <= c < n => Tally(ts, CapCredit, c))
  }

  /** Reservations at a node never outnumber what its children still announce. */
  ghost predicate Covered(a: Arena, ts: seq<Thread>) {
    forall c :: 0 < c < |a.size| ==> Tally(ts, Looker, c) <= Sum(a.size[c])
  }

  /** Every slot has exactly one holder. */
  ghost predicate Handles(free: seq<set<nat>>, ts: seq<Thread>, live: set<Handle>) {
    Holders(free, Returnings(ts), live)
  }

  /** The conservation laws, with the work of the threads as what is under way. */
  ghost predicate SizeLawOf(N: nat, a: Arena, ts: seq<Thread>) {
    SizeLaw(a, N, SizeOff(ts, |a.owner|), TallyBelow(ts, Reserved) + TallyBelow(ts, Credit))
  }

  ghost predicate CapLawOf(N: nat, a: Arena, ts: seq<Thread>) {
    CapLaw(a, N, CapOff(ts, |a.owner|), TallyBelow(ts, CapCredit))
  }

  ghost predicate Laws(N: nat, a: Arena, ts: seq<Thread>) {
    SizeLawOf(N, a, ts) && CapLawOf(N, a, ts)
  }

  ghost predicate Inv(N: nat, s: State) {
    && CanStep(N, s)
    && Laws(N, s.arena, s.threads)
    && Covered(s.arena, s.threads)
    && Handles(s.arena.free, s.threads, s.live)
  }

  // ---- tallies ----

  lemma TallyPut(ts: seq<Thread>, t: nat, th: Thread, r: Role, c: nat)
    requires t < |ts|
    ensures Tally(ts[t := th], r, c) + Weight(ts[t], r, c) == Tally(ts, r, c) + Weight(th, r, c)
    ensures Weight(ts[t], r, c) <= Tally(ts, r, c)
  {
    SumUpdate(Weights(ts, r, c), t, Weight(th, r, c));
    SumAtLeast(Weights(ts, r, c), t);
    assert Weights(ts[t := th], r, c) == Weights(ts, r, c)[t := Weight(th, r, c)];
  }

  lemma TallyBelowPut(ts: seq<Thread>, t: nat, th: Thread, r: Role)
    requires t < |ts|
    ensures TallyBelow(ts[t := th], r) + WeightBelow(ts[t], r) == TallyBelow(ts, r) + WeightBelow(th, r)
    ensures WeightBelow(ts[t], r) <= TallyBelow(ts, r)
  {
    SumUpdate(WeightsBelow(ts, r), t, WeightBelow(th, r));
    SumAtLeast(WeightsBelow(ts, r), t);
    assert WeightsBelow(ts[t := th], r) == WeightsBelow(ts, r)[t := WeightBelow(th, r)];
  }

  lemma AllTalliesPut(ts: seq<Thread>, t: nat, th: Thread)
    requires t < |ts|
    ensures forall r, c: nat ::
              && Tally(ts[t := th], r, c) + Weight(ts[t], r, c) == Tally(ts, r, c) + Weight(th, r, c)
              && Weight(ts[t], r, c) <= Tally(ts, r, c)
    ensures forall r ::
              && TallyBelow(ts[t := th], r) + WeightBelow(ts[t], r) == TallyBelow(ts, r) + WeightBelow(th, r)
              && WeightBelow(ts[t], r) <= TallyBelow(ts, r)
  {
    forall r, c: nat
      ensures Tally(ts[t := th], r, c) + Weight(ts[t], r, c) == Tally(ts, r, c) + Weight(th, r, c)
      ensures Weight(ts[t], r, c) <= Tally(ts, r, c)
    {
      TallyPut(ts, t, th, r, c);
    }
    forall r
      ensures TallyBelow(ts[t := th], r) + WeightBelow(ts[t], r) == TallyBelow(ts, r) + WeightBelow(th, r)
      ensures WeightBelow(ts[t], r) <= TallyBelow(ts, r)
    {
      TallyBelowPut(ts, t, th, r);
    }
  }

  lemma LookersAreReserved(ts: seq<Thread>, c: nat)
    ensures Tally(ts, Looker, c) <= Tally(ts, Reserved, c)
  {
    SumMonotone(Weights(ts, Looker, c), Weights(ts, Reserved, c));
  }

  /** Nothing is under way at a node that does not exist. */
  lemma NothingBeyond(N: nat, s: State, r: Role, c: nat)
    requires CanStep(N, s) && c >= |s.arena.owner|
    ensures Tally(s.threads, r, c) == 0
  {
    SumZero(Weights(s.threads, r, c));
  }

  lemma ReturningsPut(ts: seq<Thread>, t: nat, th: Thread)
    requires t < |ts|
    ensures Returnings(ts[t := th]) == Returnings(ts)[t := Returning(th)]
  {
  }

  // ---- steps that only move the program counter ----

  /** Replacing the thread changes no tally but possibly the lookers'. */
  ghost predicate SameWork(was: Thread, th: Thread) {
    && (forall r, c: nat :: r != Looker ==> Weight(th, r, c) == Weight(was, r, c))
    && (forall r :: r != Looker ==> WeightBelow(th, r) == WeightBelow(was, r))
  }

  lemma QuietKeepsLaws(N: nat, a: Arena, ts: seq<Thread>, t: nat, th: Thread)
    requires Laws(N, a, ts) && t < |ts| && SameWork(ts[t], th)
    ensures Laws(N, a, ts[t := th])
  {
    AllTalliesPut(ts, t, th);
    assert SizeOff(ts[t := th], |a.owner|) == SizeOff(ts, |a.owner|);
    assert CapOff(ts[t := th], |a.owner|) == CapOff(ts, |a.owner|);
  }

  lemma QuietKeepsCovered(N: nat, a: Arena, ts: seq<Thread>, t: nat, th: Thread)
    requires t < |ts| && Laws(N, a, ts[t := th]) && Covered(a, ts)
    // a thread starts looking for a child of n only when it saw the segment of n empty
    requires forall c: nat | c < |a.free| :: Weight(th, Looker, c) <= Weight(ts[t], Looker, c) || a.free[c] == {}
    ensures Covered(a, ts[t := th])
  {
    var ts' := ts[t := th];
    forall c | 0 < c < |a.size| ensures Tally(ts', Looker, c) <= Sum(a.size[c]) {
      TallyPut(ts, t, th, Looker, c);
      LookersAreReserved(ts', c);
      assert SizeAt(a, N, c) + SizeOff(ts', |a.owner|)[c] == SizeOf(a, c);
    }
  }

  lemma QuietKeepsHandles(free: seq<set<nat>>, ts: seq<Thread>, live: set<Handle>, t: nat, th: Thread)
    requires Handles(free, ts, live) && t < |ts| && Returning(th) == Returning(ts[t])
    ensures Handles(free, ts[t := th], live)
  {
    ReturningsPut(ts, t, th);
    assert Returnings(ts)[t := Returning(th)] == Returnings(ts);
  }

  lemma QuietKeepsInv(N: nat, s: State, t: nat, th: Thread)
    requires Inv(N, s) && t < |s.threads| && InBounds(N, s.arena, th)
    requires SameWork(s.threads[t], th) && Returning(th) == Returning(s.threads[t])
    requires forall c: nat | c < |s.arena.free| ::
               Weight(th, Looker, c) <= Weight(s.threads[t], Looker, c) || s.arena.free[c] == {}
    ensures Inv(N, Put(s, t, th))
  {
    QuietKeepsLaws(N, s.arena, s.threads, t, th);
    QuietKeepsCovered(N, s.arena, s.threads, t, th);
    QuietKeepsHandles(s.arena.free, s.threads, s.live, t, th);
  }

  // ---- steps that change the pool ----

  lemma BeginReleaseKeepsInv(N: nat, s: State, t: nat, h: Handle, th: Thread)
    requires Inv(N, s) && t < |s.threads| && InBounds(N, s.arena, th)
    requires SameWork(s.threads[t], th) && Returning(s.threads[t]).None? && Returning(th) == Some(h) && h in s.live
    requires forall c: nat :: Weight(th, Looker, c) == 0
    ensures Inv(N, Put(s, t, th).(live := s.live - {h}))
  {
    ReturnKeepsHolders(s.arena.free, Returnings(s.threads), s.live, t, h);
    ReturningsPut(s.threads, t, th);
    QuietKeepsLaws(N, s.arena, s.threads, t, th);
    QuietKeepsCovered(N, s.arena, s.threads, t, th);
  }

  lemma BeginAcquireKeepsSizeLaw(N: nat, a: Arena, ts: seq<Thread>, t: nat)
    requires SizeLawOf(N, a, ts) && t < |ts| && ts[t] == Idle
    ensures SizeLawOf(N, a, ts[t := SegLoad(0)])
  {
    SizeOffMoves(ts, t, SegLoad(0), |a.owner|, 0, 0);
    TallyBelowPut(ts, t, SegLoad(0), Reserved);
    TallyBelowPut(ts, t, SegLoad(0), Credit);
  }

  /** An acquire call starts at the root, where nothing is reserved in advance. */
  lemma BeginAcquireKeepsInv(N: nat, s: State, t: nat)
    requires Inv(N, s) && t < |s.threads| && s.threads[t] == Idle
    ensures Inv(N, Put(s, t, SegLoad(0)))
  {
    var a, ts := s.arena, s.threads;
    BeginAcquireKeepsSizeLaw(N, a, ts, t);
    BoundsFrame(N, s, a, t, SegLoad(0));
    CapLawFrame(N, a, a, ts, t, SegLoad(0));
    QuietKeepsCovered(N, a, ts, t, SegLoad(0));
    QuietKeepsHandles(a.free, ts, s.live, t, SegLoad(0));
  }

  lemma TakeKeepsHandles(free: seq<set<nat>>, ts: seq<Thread>, live: set<Handle>, t: nat, th: Thread, n: nat, k: nat)
    requires Handles(free, ts, live) && t < |ts| && Returning(ts[t]).None? && Returning(th).None?
    requires n < |free| && k in free[n]
    ensures Handle(n, k) !in live + ReturningSet(ts)
    ensures Handles(free[n := free[n] - {k}], ts[t := th], live + {Handle(n, k)})
  {
    TakeKeepsHolders(free, Returnings(ts), live, n, k);
    ReturningsPut(ts, t, th);
    assert Returnings(ts)[t := None] == Returnings(ts);
  }

  lemma FreeKeepsHandles(free: seq<set<nat>>, ts: seq<Thread>, live: set<Handle>, t: nat, th: Thread, h: Handle)
    requires Handles(free, ts, live) && t < |ts| && Returning(ts[t]) == Some(h) && Returning(th).None?
    ensures h.node < |free| && h.slot !in free[h.node]
    ensures Handles(free[h.node := free[h.node] + {h.slot}], ts[t := th], live)
  {
    FreeKeepsHolders(free, Returnings(ts), live, t, h);
    ReturningsPut(ts, t, th);
  }

  /** Replacing thread `t` moves the work under way for size counters by the difference of its weights. */
  lemma SizeWorkMoves(ts: seq<Thread>, t: nat, th: Thread, len: nat)
    requires t < |ts|
    ensures forall c :: 0 <= c < len ==>
              SizeOff(ts[t := th], len)[c] + Weight(ts[t], Reserved, c) + Weight(ts[t], Credit, c)
              == SizeOff(ts, len)[c] + Weight(th, Reserved, c) + Weight(th, Credit, c)
    ensures TallyBelow(ts[t := th], Reserved) + TallyBelow(ts[t := th], Credit)
            + WeightBelow(ts[t], Reserved) + WeightBelow(ts[t], Credit)
            == TallyBelow(ts, Reserved) + TallyBelow(ts, Credit) + WeightBelow(th, Reserved) + WeightBelow(th, Credit)
    ensures WeightBelow(ts[t], Reserved) <= TallyBelow(ts, Reserved)
        && WeightBelow(ts[t], Credit) <= TallyBelow(ts, Credit)
    ensures forall c :: 0 <= c < len ==>
              Weight(ts[t], Reserved, c) + Weight(ts[t], Credit, c) <= SizeOff(ts, len)[c]
  {
    AllTalliesPut(ts, t, th);
  }

  /** The work under way changes by `d` at node `n`, if the thread's does. */
  lemma SizeOffMoves(ts: seq<Thread>, t: nat, th: Thread, len: nat, n: nat, d: int)
    requires t < |ts|
    requires forall c: nat :: c > 0 ==>
               Weight(th, Reserved, c) + Weight(th, Credit, c)
               == Weight(ts[t], Reserved, c) + Weight(ts[t], Credit, c) + (if c == n then d else 0)
    ensures Moved(SizeOff(ts, len), SizeOff(ts[t := th], len), n, d)
  {
    forall c | 0 < c < len
      ensures SizeOff(ts[t := th], len)[c] == SizeOff(ts, len)[c] + (if c == n then d else 0)
    {
      TallyPut(ts, t, th, Reserved, c);
      TallyPut(ts, t, th, Credit, c);
    }
  }

  lemma CapWorkMoves(ts: seq<Thread>, t: nat, th: Thread, len: nat)
    requires t < |ts|
    ensures forall c :: 0 <= c < len ==>
              CapOff(ts[t := th], len)[c] + Weight(ts[t], CapCredit, c) == CapOff(ts, len)[c] + Weight(th, CapCredit, c)
    ensures TallyBelow(ts[t := th], CapCredit) + WeightBelow(ts[t], CapCredit)
            == TallyBelow(ts, CapCredit) + WeightBelow(th, CapCredit)
    ensures WeightBelow(ts[t], CapCredit) <= TallyBelow(ts, CapCredit)
    ensures forall c :: 0 <= c < len ==> Weight(ts[t], CapCredit, c) <= CapOff(ts, len)[c]
  {
    AllTalliesPut(ts, t, th);
  }

  /** The capacity law does not see bits or size counters. */
  lemma CapLawFrame(N: nat, a: Arena, a': Arena, ts: seq<Thread>, t: nat, th: Thread)
    requires t < |ts| && CapLawOf(N, a, ts)
    requires Shape(a', N) && a'.owner == a.owner && a'.capacity == a.capacity
    requires forall c: nat :: Weight(th, CapCredit, c) == Weight(ts[t], CapCredit, c)
    requires WeightBelow(th, CapCredit) == WeightBelow(ts[t], CapCredit)
    ensures CapLawOf(N, a', ts[t := th])
  {
    CapWorkMoves(ts, t, th, |a.owner|);
    assert CapOff(ts[t := th], |a.owner|) == CapOff(ts, |a.owner|);
  }

  /** Being inside the arena depends on the links only. */
  lemma BoundsFrame(N: nat, s: State, a': Arena, t: nat, th: Thread)
    requires CanStep(N, s) && t < |s.threads| && InBounds(N, s.arena, th)
    requires Shape(a', N) && a'.owner == s.arena.owner && a'.childs == s.arena.childs
    ensures CanStep(N, Put(s, t, th).(arena := a'))
  {
    var ts' := s.threads[t := th];
    forall u | 0 <= u < |ts'| ensures InBounds(N, a', ts'[u]) {
      assert InBounds(N, s.arena, if u == t then th else s.threads[u]);
    }
  }

  lemma TakeKeepsSizeLaw(N: nat, a: Arena, ts: seq<Thread>, t: nat, n: nat, k: nat)
    requires SizeLawOf(N, a, ts) && t < |ts| && ts[t].SegCas? && ts[t].n == n
    requires n < |a.free| && k in a.free[n]
    ensures SizeLawOf(N, SetFree(a, n, a.free[n] - {k}), ts[t := Idle])
  {
    SizeOffMoves(ts, t, Idle, |a.owner|, n, -1);
    TallyBelowPut(ts, t, Idle, Reserved);
    TallyBelowPut(ts, t, Idle, Credit);
    TakeKeepsLaw(a, N, SizeOff(ts, |a.owner|), TallyBelow(ts, Reserved) + TallyBelow(ts, Credit),
                 SizeOff(ts[t := Idle], |a.owner|), n, k);
  }

  lemma GiveKeepsSizeLaw(N: nat, a: Arena, ts: seq<Thread>, t: nat, th: Thread, n: nat, k: nat)
    requires SizeLawOf(N, a, ts) && t < |ts| && ts[t].RelCas? && n < |a.free| && k !in a.free[n]
    requires At(th).None? && WeightBelow(th, Credit) == Below(n, 1)
    requires forall c: nat :: c > 0 ==> Weight(th, Credit, c) == if c == n then 1 else 0
    ensures SizeLawOf(N, SetFree(a, n, a.free[n] + {k}), ts[t := th])
  {
    SizeOffMoves(ts, t, th, |a.owner|, n, 1);
    TallyBelowPut(ts, t, th, Reserved);
    TallyBelowPut(ts, t, th, Credit);
    GiveKeepsLaw(a, N, SizeOff(ts, |a.owner|), TallyBelow(ts, Reserved) + TallyBelow(ts, Credit),
                 SizeOff(ts[t := th], |a.owner|), n, k);
  }

  /** What a thread has under way after adding a credit at node `n`. */
  lemma NextSizeWork(N: nat, a: Arena, n: nat, v: nat, after: After)
    requires Shape(a, N) && n < |a.owner|
    ensures var th := NextSize(a, n, v, after);
            && Returning(th).None?
            && At(th) == (if after.Retry? then Some(after.n) else None)
            && (forall c: nat :: c > 0 ==> Weight(th, Credit, c) == if c == n then v else 0)
            && WeightBelow(th, Credit) == Below(n, v)
            && (forall c: nat :: Weight(th, CapCredit, c) == if after.Retry? && after.child == c then W else 0)
            && WeightBelow(th, CapCredit) == (if after.Retry? then W else 0)
            && (forall c: nat :: Looking(th, c) <==> At(th) == Some(c))
            && ((after.Retry? ==> after.n < |a.owner| && 0 < after.child < |a.owner|) ==> InBounds(N, a, th))
  {
    assert n == 0 <==> a.owner[n].None?;
  }

  /** Bits changed: everything about counters and lookers stays. */
  lemma SetFreeKeepsRest(N: nat, s: State, t: nat, th: Thread, n: nat, f: set<nat>)
    requires CanStep(N, s) && Covered(s.arena, s.threads) && t < |s.threads| && n < |s.arena.free|
    requires CapLawOf(N, s.arena, s.threads) && InBounds(N, s.arena, th)
    requires forall c: nat :: Weight(th, Looker, c) <= Weight(s.threads[t], Looker, c)
    requires forall c: nat :: Weight(th, CapCredit, c) == Weight(s.threads[t], CapCredit, c)
    requires WeightBelow(th, CapCredit) == WeightBelow(s.threads[t], CapCredit)
    ensures CanStep(N, Put(s, t, th).(arena := SetFree(s.arena, n, f)))
    ensures Covered(SetFree(s.arena, n, f), s.threads[t := th])
    ensures CapLawOf(N, SetFree(s.arena, n, f), s.threads[t := th])
  {
    var a, a' := s.arena, SetFree(s.arena, n, f);
    SetFreeEffect(a, N, n, f);
    BoundsFrame(N, s, a', t, th);
    forall c | 0 < c < |a'.size| ensures Tally(s.threads[t := th], Looker, c) <= Sum(a'.size[c]) {
      TallyPut(s.threads, t, th, Looker, c);
    }
    CapLawFrame(N, a, a', s.threads, t, th);
  }

  /** The exchange that takes a bit. */
  lemma TakeKeepsInv(N: nat, s: State, t: nat, n: nat)
    requires Inv(N, s) && t < |s.threads| && s.threads[t].SegCas? && s.threads[t].n == n
    requires s.arena.free[n] == s.threads[t].flag
    ensures var k := Least(s.arena.free[n]);
            && Handle(n, k) !in s.live + ReturningSet(s.threads)
            && Inv(N, Put(s, t, Idle).(arena := SetFree(s.arena, n, s.arena.free[n] - {k}),
                live := s.live + {Handle(n, k)}))
  {
    hide CapLawOf, Covered, Handles, SizeLawOf;
    var a, ts, k := s.arena, s.threads, Least(s.arena.free[n]);
    TakeKeepsSizeLaw(N, a, ts, t, n, k);
    SetFreeKeepsRest(N, s, t, Idle, n, a.free[n] - {k});
    TakeKeepsHandles(a.free, ts, s.live, t, Idle, n, k);
  }

  /** The exchange that sets a bit; the credit for it starts at the same node. */
  lemma GiveKeepsInv(N: nat, s: State, t: nat, h: Handle)
    requires Inv(N, s) && t < |s.threads| && s.threads[t].RelCas? && s.threads[t].h == h
    requires s.arena.free[h.node] == s.threads[t].flag
    ensures Inv(N, Put(s, t, NextSize(s.arena, h.node, 1, Return)).(
                     arena := SetFree(s.arena, h.node, s.arena.free[h.node] + {h.slot})))
  {
    hide CapLawOf, Covered, Handles, SizeLawOf;
    var a, ts, th := s.arena, s.threads, NextSize(s.arena, h.node, 1, Return);
    NextSizeWork(N, a, h.node, 1, Return);
    FreeKeepsHandles(a.free, ts, s.live, t, th, h);
    GiveKeepsSizeLaw(N, a, ts, t, th, h.node, h.slot);
    SetFreeKeepsRest(N, s, t, th, h.node, a.free[h.node] + {h.slot});
  }

  /** A size counter changed for a child that exists: given the size law, the rest follows. */
  lemma SetSizeKeepsInv(N: nat, s: State, t: nat, th: Thread, n: nat, i: nat, v: nat)
    requires Inv(N, s) && t < |s.threads| && n < |s.arena.size| && i < N && s.arena.childs[n][i].Some?
    requires InBounds(N, s.arena, th) && Returning(th) == Returning(s.threads[t])
    requires forall c: nat :: Weight(th, CapCredit, c) == Weight(s.threads[t], CapCredit, c)
    requires WeightBelow(th, CapCredit) == WeightBelow(s.threads[t], CapCredit)
    requires forall c: nat :: Weight(th, Looker, c) <= Weight(s.threads[t], Looker, c)
    requires v >= s.arena.size[n][i]
             || (v + 1 == s.arena.size[n][i] && Weight(s.threads[t], Looker, n) == 1 && Weight(th, Looker, n) == 0)
    requires SizeLawOf(N, SetSize(s.arena, n, i, v), s.threads[t := th])
    ensures Inv(N, Put(s, t, th).(arena := SetSize(s.arena, n, i, v)))
  {
    var a, a', ts := s.arena, SetSize(s.arena, n, i, v), s.threads;
    SetSizeEffect(a, N, n, i, v);
    BoundsFrame(N, s, a', t, th);
    CapLawFrame(N, a, a', ts, t, th);
    SumUpdate(a.size[n], i, v);
    forall c | 0 < c < |a'.size| ensures Tally(ts[t := th], Looker, c) <= Sum(a'.size[c]) {
      TallyPut(ts, t, th, Looker, c);
    }
    QuietKeepsHandles(a.free, ts, s.live, t, th);
  }

  /** The exchange that reserves a slot below one of the children. */
  lemma DescendKeepsSizeLaw(N: nat, a: Arena, ts: seq<Thread>, t: nat, n: nat, i: nat, w: nat)
    requires SizeLawOf(N, a, ts) && t < |ts| && ts[t].ScanCas? && ts[t].n == n
    requires n < |a.owner| && i < N && a.size[n][i] == w + 1
    ensures a.childs[n][i].Some?
    ensures SizeLawOf(N, SetSize(a, n, i, w), ts[t := Descend(n, i, a.childs[n][i])])
  {
    var th, child := Descend(n, i, a.childs[n][i]), a.childs[n][i].value;
    assert IsEdge(a, Edge(n, i), child);
    SizeOffMoves(ts, t, Idle, |a.owner|, n, -1);
    SizeOffMoves(ts[t := Idle], t, th, |a.owner|, child, 1);
    assert ts[t := Idle][t := th] == ts[t := th];
    TallyBelowPut(ts, t, th, Reserved);
    TallyBelowPut(ts, t, th, Credit);
    DescendKeepsLaw(a, N, SizeOff(ts, |a.owner|), TallyBelow(ts, Reserved) + TallyBelow(ts, Credit),
                    SizeOff(ts[t := Idle], |a.owner|), SizeOff(ts[t := th], |a.owner|), n, i, w);
  }

  lemma DescendKeepsInv(N: nat, s: State, t: nat, n: nat, i: nat, w: nat)
    requires Inv(N, s) && t < |s.threads| && s.threads[t].ScanCas? && s.threads[t].n == n
    requires n < |s.arena.owner| && i < N && s.arena.size[n][i] == w + 1
    ensures Inv(N, Put(s, t, Descend(n, i, s.arena.childs[n][i])).(arena := SetSize(s.arena, n, i, w)))
  {
    hide CapLawOf, Covered, Handles, SizeLawOf;
    DescendKeepsSizeLaw(N, s.arena, s.threads, t, n, i, w);
    SetSizeKeepsInv(N, s, t, Descend(n, i, s.arena.childs[n][i]), n, i, w);
  }

  /** Thread `next` is thread `th` but for its size credit, which is now `v` at node `p`. */
  ghost predicate PassesCredit(th: Thread, next: Thread, p: nat, v: nat) {
    && Returning(next) == Returning(th)
    && (forall r, c: nat :: r != Credit ==> Weight(next, r, c) == Weight(th, r, c))
    && (forall r :: r != Credit ==> WeightBelow(next, r) == WeightBelow(th, r))
    && (forall c: nat :: c > 0 ==> Weight(next, Credit, c) == if c == p then v else 0)
    && WeightBelow(next, Credit) == Below(p, v)
  }

  /** The bookkeeping of an addition of inc_size_: the credit leaves `c` and arrives at `p`. */
  lemma CreditMoves(ts: seq<Thread>, t: nat, next: Thread, len: nat, c: nat, v: nat, p: nat, after: After)
    requires t < |ts| && ts[t] == AddSize(c, v, after) && c > 0 && PassesCredit(ts[t], next, p, v)
    ensures var mid := AddSize(c, 0, after);
            && Moved(SizeOff(ts, len), SizeOff(ts[t := mid], len), c, -(v as int))
            && Moved(SizeOff(ts[t := mid], len), SizeOff(ts[t := next], len), p, v)
    ensures v <= TallyBelow(ts, Credit)
    ensures TallyBelow(ts[t := next], Reserved) + TallyBelow(ts[t := next], Credit) + v
            == TallyBelow(ts, Reserved) + TallyBelow(ts, Credit) + Below(p, v)
  {
    var mid := AddSize(c, 0, after);
    SizeOffMoves(ts, t, mid, len, c, -(v as int));
    assert ts[t := mid][t := next] == ts[t := next];
    assert forall d: nat :: Weight(mid, Reserved, d) == Weight(ts[t], Reserved, d);
    SizeOffMoves(ts[t := mid], t, next, len, p, v);
    TallyBelowPut(ts, t, next, Reserved);
    TallyBelowPut(ts, t, next, Credit);
  }

  /** An addition of inc_size_ moves a credit one level up; `w` is the counter's new value. */
  lemma CreditKeepsSizeLaw(N: nat, a: Arena, ts: seq<Thread>, t: nat, next: Thread, c: nat, v: nat, e: Edge, w: nat)
    requires SizeLawOf(N, a, ts) && t < |ts| && ts[t].AddSize? && ts[t].c == c && ts[t].v == v
    requires IsEdge(a, e, c) && PassesCredit(ts[t], next, e.node, v) && w == a.size[e.node][e.id] + v
    ensures SizeLawOf(N, SetSize(a, e.node, e.id, w), ts[t := next])
  {
    var len := |a.owner|;
    CreditMoves(ts, t, next, len, c, v, e.node, ts[t].after);
    CreditKeepsLaw(a, N, SizeOff(ts, len), TallyBelow(ts, Reserved) + TallyBelow(ts, Credit),
                   SizeOff(ts[t := AddSize(c, 0, ts[t].after)], len), SizeOff(ts[t := next], len), c, v, e, w);
  }

  lemma CreditKeepsInv(N: nat, s: State, t: nat, next: Thread, c: nat, v: nat, e: Edge, w: nat)
    requires Inv(N, s) && t < |s.threads| && s.threads[t].AddSize? && s.threads[t].c == c && s.threads[t].v == v
    requires IsEdge(s.arena, e, c) && PassesCredit(s.threads[t], next, e.node, v) && InBounds(N, s.arena, next)
    requires w == s.arena.size[e.node][e.id] + v
    ensures Inv(N, Put(s, t, next).(arena := SetSize(s.arena, e.node, e.id, w)))
  {
    CreditKeepsSizeLaw(N, s.arena, s.threads, t, next, c, v, e, w);
    SetSizeKeepsInv(N, s, t, next, e.node, e.id, w);
  }

  /** Thread `next` is thread `th` but for its capacity credit, which is now `v` at node `p`. */
  ghost predicate PassesCapCredit(th: Thread, next: Thread, p: nat, v: nat) {
    && Returning(next) == Returning(th)
    && (forall r, c: nat :: r != CapCredit ==> Weight(next, r, c) == Weight(th, r, c))
    && (forall r :: r != CapCredit ==> WeightBelow(next, r) == WeightBelow(th, r))
    && (forall c: nat :: c > 0 ==> Weight(next, CapCredit, c) == if c == p then v else 0)
    && WeightBelow(next, CapCredit) == Below(p, v)
  }

  lemma CapCreditMoves(ts: seq<Thread>, t: nat, next: Thread, len: nat, c: nat, v: nat, p: nat, after: After)
    requires t < |ts| && ts[t] == AddCap(c, v, after) && c > 0 && PassesCapCredit(ts[t], next, p, v)
    ensures var mid := AddCap(c, 0, after);
            && Moved(CapOff(ts, len), CapOff(ts[t := mid], len), c, -(v as int))
            && Moved(CapOff(ts[t := mid], len), CapOff(ts[t := next], len), p, v)
    ensures v <= TallyBelow(ts, CapCredit)
    ensures TallyBelow(ts[t := next], CapCredit) + v == TallyBelow(ts, CapCredit) + Below(p, v)
  {
    CapWorkMoves(ts, t, AddCap(c, 0, after), len);
    CapWorkMoves(ts, t, next, len);
  }

  /** An addition of inc_cap_ moves a credit one level up. */
  lemma CapCreditKeepsCapLaw(N: nat, a: Arena, ts: seq<Thread>, t: nat, next: Thread, c: nat, v: nat, e: Edge, w: nat)
    requires CapLawOf(N, a, ts) && t < |ts| && ts[t].AddCap? && ts[t].c == c && ts[t].v == v
    requires IsEdge(a, e, c) && PassesCapCredit(ts[t], next, e.node, v) && w == a.capacity[e.node][e.id] + v
    ensures CapLawOf(N, SetCap(a, e.node, e.id, w), ts[t := next])
  {
    var len := |a.owner|;
    CapCreditMoves(ts, t, next, len, c, v, e.node, ts[t].after);
    CapCreditKeepsLaw(a, N, CapOff(ts, len), TallyBelow(ts, CapCredit),
                      CapOff(ts[t := AddCap(c, 0, ts[t].after)], len), CapOff(ts[t := next], len), c, v, e, w);
  }

  /** The size law does not see capacity counters. */
  lemma SizeLawFrame(N: nat, a: Arena, a': Arena, ts: seq<Thread>, t: nat, th: Thread)
    requires t < |ts| && SizeLawOf(N, a, ts)
    requires Shape(a', N) && a'.owner == a.owner && a'.size == a.size && a'.free == a.free
    requires forall r, c: nat :: r != CapCredit ==> Weight(th, r, c) == Weight(ts[t], r, c)
    requires forall r :: r != CapCredit ==> WeightBelow(th, r) == WeightBelow(ts[t], r)
    ensures SizeLawOf(N, a', ts[t := th])
  {
    SizeWorkMoves(ts, t, th, |a.owner|);
    assert SizeOff(ts[t := th], |a.owner|) == SizeOff(ts, |a.owner|);
  }

  lemma CapCreditKeepsInv(N: nat, s: State, t: nat, next: Thread, c: nat, v: nat, e: Edge, w: nat)
    requires Inv(N, s) && t < |s.threads| && s.threads[t].AddCap? && s.threads[t].c == c && s.threads[t].v == v
    requires IsEdge(s.arena, e, c) && PassesCapCredit(s.threads[t], next, e.node, v) && InBounds(N, s.arena, next)
    requires w == s.arena.capacity[e.node][e.id] + v
    ensures Inv(N, Put(s, t, next).(arena := SetCap(s.arena, e.node, e.id, w)))
  {
    var a, a', ts := s.arena, SetCap(s.arena, e.node, e.id, w), s.threads;
    CapCreditKeepsCapLaw(N, a, ts, t, next, c, v, e, w);
    SetCapEffect(a, N, e.node, e.id, w);
    SizeLawFrame(N, a, a', ts, t, next);
    BoundsFrame(N, s, a', t, next);
    forall c | 0 < c < |a'.size| ensures Tally(ts[t := next], Looker, c) <= Sum(a'.size[c]) {
      TallyPut(ts, t, next, Looker, c);
    }
    QuietKeepsHandles(a.free, ts, s.live, t, next);
  }

  /** The tallies after a thread has published node `len`, and the arena without and with it. */
  ghost predicate Published(N: nat, a: Arena, ts: seq<Thread>, ts': seq<Thread>) {
    var len := |a.owner|;
    && SizeOff(ts', len + 1) == SizeOff(ts, len) + [W]
    && CapOff(ts', len + 1) == CapOff(ts, len) + [W]
    && TallyBelow(ts', Reserved) + TallyBelow(ts', Credit) == TallyBelow(ts, Reserved) + TallyBelow(ts, Credit) + W
    && TallyBelow(ts', CapCredit) == TallyBelow(ts, CapCredit) + W
    && (forall c :: 0 < c <= len ==> Tally(ts', Looker, c) == if c == len then 0 else Tally(ts, Looker, c))
  }

  /** The bookkeeping of a new node: all of its slots are owed to its owner. */
  lemma PublishMoves(N: nat, s: State, t: nat, th: Thread, n: nat)
    requires CanStep(N, s) && t < |s.threads| && s.threads[t].CreCas? && s.threads[t].n == n
    requires th == AddSize(|s.arena.owner|, W, Retry(n, |s.arena.owner|))
    ensures Published(N, s.arena, s.threads, s.threads[t := th])
  {
    var len, ts, ts' := |s.arena.owner|, s.threads, s.threads[t := th];
    assert InBounds(N, s.arena, ts[t]) && n < len;
    AllTalliesPut(ts, t, th);
    forall r, c: nat | c <= len
      ensures Tally(ts', r, c) == if c < len then Tally(ts, r, c) else if r == Credit || r == CapCredit then W else 0
    {
      NothingBeyond(N, s, r, len);
      TallyPut(ts, t, th, r, c);
    }
  }

  lemma PublishKeepsBounds(N: nat, s: State, t: nat, th: Thread, m: nat, id: nat)
    requires CanStep(N, s) && t < |s.threads| && m < |s.arena.owner| && id < N && s.arena.childs[m][id].None?
    requires th.AddSize? && th.c == |s.arena.owner| && th.after.Retry? && th.after.n < |s.arena.owner|
    requires th.after.child == |s.arena.owner|
    ensures CanStep(N, Put(s, t, th).(arena := Publish(s.arena, m, id, AllSlots())))
  {
    var a' := Publish(s.arena, m, id, AllSlots());
    PublishEffect(s.arena, N, m, id, AllSlots());
    var ts' := s.threads[t := th];
    forall u | 0 <= u < |ts'| ensures InBounds(N, a', ts'[u]) {
      if u != t { assert InBounds(N, s.arena, s.threads[u]); }
    }
  }

  lemma PublishKeepsLawsOf(N: nat, a: Arena, ts: seq<Thread>, ts': seq<Thread>, m: nat, id: nat)
    requires Laws(N, a, ts) && Published(N, a, ts, ts')
    requires m < |a.owner| && id < N && a.childs[m][id].None?
    ensures Laws(N, Publish(a, m, id, AllSlots()), ts')
  {
    PublishKeepsLaws(a, N, SizeOff(ts, |a.owner|), TallyBelow(ts, Reserved) + TallyBelow(ts, Credit),
                     CapOff(ts, |a.owner|), TallyBelow(ts, CapCredit), m, id);
  }

  lemma PublishKeepsCovered(N: nat, a: Arena, ts: seq<Thread>, ts': seq<Thread>, m: nat, id: nat)
    requires Sized(a, N) && Covered(a, ts) && Published(N, a, ts, ts')
    requires m < |a.owner| && id < N
    ensures Covered(Publish(a, m, id, AllSlots()), ts')
  {
    var a' := Publish(a, m, id, AllSlots());
    forall c | 0 < c < |a'.size| ensures Tally(ts', Looker, c) <= Sum(a'.size[c]) {
      if c < |a.size| { assert a'.size[c] == a.size[c]; }
    }
  }

  /** The exchange that publishes a new node. */
  lemma PublishKeepsInv(N: nat, s: State, t: nat, th: Thread, n: nat, m: nat, id: nat)
    requires Inv(N, s) && t < |s.threads| && s.threads[t] == CreCas(n, m, id) && InBounds(N, s.arena, s.threads[t])
    requires s.arena.childs[m][id].None?
    requires th == AddSize(|s.arena.owner|, W, Retry(n, |s.arena.owner|))
    ensures Inv(N, Put(s, t, th).(arena := Publish(s.arena, m, id, AllSlots())))
  {
    PublishKeepsBounds(N, s, t, th, m, id);
    PublishMoves(N, s, t, th, n);
    PublishKeepsLawsOf(N, s.arena, s.threads, s.threads[t := th], m, id);
    PublishKeepsCovered(N, s.arena, s.threads, s.threads[t := th], m, id);
    GrowKeepsHolders(s.arena.free, Returnings(s.threads), s.live);
    QuietKeepsHandles(s.arena.free + [AllSlots()], s.threads, s.live, t, th);
  }

  // ---- every step keeps the invariant ----

  lemma NextSizePasses(N: nat, a: Arena, th: Thread, e: Edge)
    requires Shape(a, N) && th.AddSize? && InBounds(N, a, th) && IsEdge(a, e, th.c)
    ensures PassesCredit(th, NextSize(a, e.node, th.v, th.after), e.node, th.v)
    ensures InBounds(N, a, NextSize(a, e.node, th.v, th.after))
  {
    NextSizeWork(N, a, e.node, th.v, th.after);
  }

  lemma NextCapPasses(N: nat, a: Arena, th: Thread, e: Edge)
    requires Shape(a, N) && th.AddCap? && InBounds(N, a, th) && IsEdge(a, e, th.c)
    ensures PassesCapCredit(th, NextCap(a, e.node, th.v, th.after), e.node, th.v)
    ensures InBounds(N, a, NextCap(a, e.node, th.v, th.after))
  {
    assert e.node == 0 <==> a.owner[e.node].None?;
  }

  /** A local step changes no work, except that a thread that saw an empty segment starts looking. */
  ghost predicate QuietStep(N: nat, a: Arena, was: Thread, th: Thread)
    requires Shape(a, N)
  {
    && SameWork(was, th) && Returning(th) == Returning(was) && InBounds(N, a, th)
    && forall c: nat | c < |a.free| :: Weight(th, Looker, c) <= Weight(was, Looker, c) || a.free[c] == {}
  }

  lemma SegmentIsQuiet(N: nat, a: Arena, was: Thread, ch: Choice, th: Thread)
    requires N > 0 && Shape(a, N) && InBounds(N, a, was) && Local(N, a, was, ch) == Some(th)
    requires was.SegLoad? || was.SegCas? || was.RelLoad? || was.RelCas? || was.Descend?
    ensures QuietStep(N, a, was, th)
  {
    if was.Descend? { assert IsEdge(a, Edge(was.n, was.id), was.child.value); }
  }

  lemma ScanIsQuiet(N: nat, a: Arena, was: Thread, ch: Choice, th: Thread)
    requires N > 0 && Shape(a, N) && InBounds(N, a, was) && Local(N, a, was, ch) == Some(th)
    requires was.HintLoad? || was.ScanLoad? || was.ScanCas?
    ensures QuietStep(N, a, was, th)
  {
  }

  lemma CreateIsQuiet(N: nat, a: Arena, was: Thread, ch: Choice, th: Thread)
    requires N > 0 && Shape(a, N) && InBounds(N, a, was) && Local(N, a, was, ch) == Some(th)
    requires was.CreFlag? || was.CreCap? || was.CreSize?
    ensures QuietStep(N, a, was, th)
  {
  }

  lemma ChildIsQuiet(N: nat, a: Arena, was: Thread, ch: Choice, th: Thread)
    requires N > 0 && Shape(a, N) && InBounds(N, a, was) && Local(N, a, was, ch) == Some(th)
    requires was.CreChild? || was.CreCas?
    ensures QuietStep(N, a, was, th)
  {
    if a.childs[was.m][was.id].Some? {
      assert IsEdge(a, Edge(was.m, was.id), a.childs[was.m][was.id].value);
    }
  }

  lemma LocalIsQuiet(N: nat, a: Arena, was: Thread, ch: Choice, th: Thread)
    requires N > 0 && Shape(a, N) && InBounds(N, a, was) && Local(N, a, was, ch) == Some(th)
    ensures QuietStep(N, a, was, th)
  {
    if was.SegLoad? || was.SegCas? || was.RelLoad? || was.RelCas? || was.Descend? {
      SegmentIsQuiet(N, a, was, ch, th);
    } else if was.HintLoad? || was.ScanLoad? || was.ScanCas? {
      ScanIsQuiet(N, a, was, ch, th);
    } else if was.CreFlag? || was.CreCap? || was.CreSize? {
      CreateIsQuiet(N, a, was, ch, th);
    } else {
      ChildIsQuiet(N, a, was, ch, th);
    }
  }

  lemma LocalStepKeepsInv(N: nat, s: State, t: nat, ch: Choice, th: Thread)
    requires Inv(N, s) && t < |s.threads| && Local(N, s.arena, s.threads[t], ch) == Some(th)
    ensures Inv(N, Put(s, t, th))
  {
    LocalIsQuiet(N, s.arena, s.threads[t], ch, th);
    QuietKeepsInv(N, s, t, th);
  }

  lemma CallStepKeepsInv(N: nat, s: State, t: nat, ch: Choice)
    requires Inv(N, s) && t < |s.threads| && s.threads[t].Idle?
    ensures Inv(N, Do(N, s, t, ch))
  {
    hide Laws, Covered;
    match ch.call
    case Acquire =>
      BeginAcquireKeepsInv(N, s, t);
    case Release(h) =>
      if h in s.live {
        assert h in s.live + ReturningSet(s.threads);
        BeginReleaseKeepsInv(N, s, t, h, RelLoad(h));
      }
  }

  lemma TakeStepKeepsInv(N: nat, s: State, t: nat, ch: Choice, n: nat, flag: set<nat>)
    requires Inv(N, s) && t < |s.threads| && s.threads[t] == SegCas(n, flag)
    requires InBounds(N, s.arena, s.threads[t]) && Local(N, s.arena, s.threads[t], ch).None?
    ensures Handle(n, Least(flag)) !in s.live + ReturningSet(s.threads)
    ensures Inv(N, Do(N, s, t, ch))
  {
    TakeKeepsInv(N, s, t, n);
  }

  lemma ReserveResult(N: nat, s: State, t: nat, ch: Choice, n: nat, id: nat, w: nat)
    requires CanStep(N, s) && t < |s.threads| && s.threads[t].ScanCas? && s.threads[t].n == n
    requires Local(N, s.arena, s.threads[t], ch).None? && id == ScanId(N, s.threads[t].index, s.threads[t].i)
    requires n < |s.arena.size| && s.arena.size[n][id] == w + 1
    ensures Do(N, s, t, ch) == Put(s, t, Descend(n, id, s.arena.childs[n][id])).(arena := SetSize(s.arena, n, id, w))
  {
  }

  lemma ReserveStepKeepsInv(N: nat, s: State, t: nat, ch: Choice, n: nat)
    requires Inv(N, s) && t < |s.threads| && s.threads[t].ScanCas? && s.threads[t].n == n
    requires InBounds(N, s.arena, s.threads[t]) && Local(N, s.arena, s.threads[t], ch).None?
    ensures Inv(N, Do(N, s, t, ch))
  {
    var id := ScanId(N, s.threads[t].index, s.threads[t].i);
    var w: nat := s.arena.size[n][id] - 1;
    ReserveResult(N, s, t, ch, n, id, w);
    DescendKeepsInv(N, s, t, n, id, w);
  }

  lemma PublishStepKeepsInv(N: nat, s: State, t: nat, ch: Choice, n: nat, m: nat, id: nat)
    requires Inv(N, s) && t < |s.threads| && s.threads[t] == CreCas(n, m, id)
    requires InBounds(N, s.arena, s.threads[t]) && Local(N, s.arena, s.threads[t], ch).None?
    ensures Inv(N, Do(N, s, t, ch))
  {
    PublishKeepsInv(N, s, t, AddSize(|s.arena.owner|, W, Retry(n, |s.arena.owner|)), n, m, id);
  }

  lemma SetFreeStepKeepsInv(N: nat, s: State, t: nat, ch: Choice, h: Handle, flag: set<nat>)
    requires Inv(N, s) && t < |s.threads| && s.threads[t] == RelCas(h, flag)
    requires InBounds(N, s.arena, s.threads[t]) && Local(N, s.arena, s.threads[t], ch).None?
    ensures Inv(N, Do(N, s, t, ch))
  {
    GiveKeepsInv(N, s, t, h);
  }

  lemma CreditResult(N: nat, s: State, t: nat, ch: Choice, e: Edge, c: nat, v: nat, after: After, w: nat)
    requires CanStep(N, s) && t < |s.threads| && s.threads[t] == AddSize(c, v, after)
    requires IsEdge(s.arena, e, c) && w == s.arena.size[e.node][e.id] + v
    ensures Do(N, s, t, ch) == Put(s, t, NextSize(s.arena, e.node, v, after)).(arena := SetSize(s.arena, e.node,
        e.id, w))
  {
  }

  lemma CreditStepKeepsInv(N: nat, s: State, t: nat, ch: Choice, e: Edge, c: nat, v: nat, after: After)
    requires Inv(N, s) && t < |s.threads| && s.threads[t] == AddSize(c, v, after)
    requires InBounds(N, s.arena, s.threads[t]) && IsEdge(s.arena, e, c)
    ensures Inv(N, Do(N, s, t, ch))
  {
    var w := s.arena.size[e.node][e.id] + v;
    NextSizePasses(N, s.arena, s.threads[t], e);
    CreditKeepsInv(N, s, t, NextSize(s.arena, e.node, v, after), c, v, e, w);
    CreditResult(N, s, t, ch, e, c, v, after, w);
  }

  lemma CapCreditResult(N: nat, s: State, t: nat, ch: Choice, e: Edge, c: nat, v: nat, after: After, w: nat)
    requires CanStep(N, s) && t < |s.threads| && s.threads[t] == AddCap(c, v, after) && after.Retry?
    requires IsEdge(s.arena, e, c) && w == s.arena.capacity[e.node][e.id] + v
    ensures Do(N, s, t, ch) == Put(s, t, NextCap(s.arena, e.node, v, after)).(arena := SetCap(s.arena, e.node, e.id, w))
  {
  }

  lemma CapCreditStepKeepsInv(N: nat, s: State, t: nat, ch: Choice, e: Edge, c: nat, v: nat, after: After)
    requires Inv(N, s) && t < |s.threads| && s.threads[t] == AddCap(c, v, after)
    requires InBounds(N, s.arena, s.threads[t]) && IsEdge(s.arena, e, c)
    ensures Inv(N, Do(N, s, t, ch))
  {
    var w := s.arena.capacity[e.node][e.id] + v;
    NextCapPasses(N, s.arena, s.threads[t], e);
    CapCreditKeepsInv(N, s, t, NextCap(s.arena, e.node, v, after), c, v, e, w);
    CapCreditResult(N, s, t, ch, e, c, v, after, w);
  }

  /** Every step of every thread keeps the invariant. */
  lemma StepKeepsInv(N: nat, s: State, t: nat, ch: Choice)
    requires Inv(N, s) && t < |s.threads|
    ensures Inv(N, Do(N, s, t, ch))
  {
    var a, th := s.arena, s.threads[t];
    assert InBounds(N, a, th);
    var local := Local(N, a, th, ch);
    if local.Some? {
      LocalStepKeepsInv(N, s, t, ch, local.value);
    } else {
      match th
      case Idle => CallStepKeepsInv(N, s, t, ch);
      case SegCas(n, flag) => TakeStepKeepsInv(N, s, t, ch, n, flag);
      case ScanCas(n, _, _, _) => ReserveStepKeepsInv(N, s, t, ch, n);
      case CreCas(n, m, id) => PublishStepKeepsInv(N, s, t, ch, n, m, id);
      case AddSize(c, v, after) => CreditStepKeepsInv(N, s, t, ch, a.owner[c].value, c, v, after);
      case AddCap(c, v, after) => CapCreditStepKeepsInv(N, s, t, ch, a.owner[c].value, c, v, after);
      case RelCas(h, flag) => SetFreeStepKeepsInv(N, s, t, ch, h, flag);
    }
  }

  lemma InitKeepsInv(N: nat, s: State)
    requires N > 0 && Init(N, s)
    ensures Inv(N, s)
  {
    FirstLaws(N);
    FirstHolders(Returnings(s.threads));
    var ts := s.threads;
    forall r, c: nat ensures Tally(ts, r, c) == 0 { SumZero(Weights(ts, r, c)); }
    forall r ensures TallyBelow(ts, r) == 0 { SumZero(WeightsBelow(ts, r)); }
    assert SizeOff(ts, 1) == [0] && CapOff(ts, 1) == [0];
  }

  /** Every state of every run satisfies the invariant. */
  lemma {:induction false} RunKeepsInv(N: nat, run: seq<State>, k: nat)
    requires N > 0 && IsRun(N, run) && k < |run|
    ensures Inv(N, run[k])
  {
    if k == 0 {
      InitKeepsInv(N, run[0]);
    } else {
      RunKeepsInv(N, run, k - 1);
      assert Next(N, run[k - 1], run[k - 1 + 1]);
      var t: nat, ch :| t < |run[k - 1].threads| && run[k] == Do(N, run[k - 1], t, ch);
      StepKeepsInv(N, run[k - 1], t, ch);
    }
  }
}
