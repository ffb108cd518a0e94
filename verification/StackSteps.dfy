/**
 * The tagged stack as a machine of threads. Every load, store, exchange and addition is one step;
 * nodes are freed and their addresses reused; a read of a freed node returns anything at all.
 */
module StackSteps {
  import opened Options

  /** A pointer with its counter. Address 0 is the null pointer. */
  datatype Ptr = Ptr(addr: nat, tag: nat)

  const NULL := Ptr(0, 0)

  datatype Node<T> = Node(next: Ptr, value: T)

  /** Where a thread stands. `prev` is old_head, `node` and `next` are new_head in push and in pop. */
  datatype Thread<T> =
    | Idle
    | PushLoad(v: T)                            // load head_
    | PushNew(v: T, prev: Ptr)                  // allocate a node and store the value
    | PushTag(v: T, prev: Ptr, addr: nat)       // counter_++
    | PushLink(v: T, prev: Ptr, node: Ptr)      // store old_head in next
    | PushCas(v: T, prev: Ptr, node: Ptr)       // exchange head_
    | PopLoad                                   // load head_
    | PopRead(prev: Ptr)                        // read next of the old head
    | PopCas(prev: Ptr, next: Ptr)              // exchange head_
    | PopTake(prev: Ptr, due: Option<T>)        // read the value
    | PopFree(prev: Ptr, got: T, due: Option<T>) // delete the node
    | Popped(res: Option<T>, due: Option<T>)    // pop has returned `res`

  /** A call of a thread, and the abstract operation that stands for it. */
  datatype Request<T> = PushCall(v: T) | PopCall

  datatype Operation<T> = Pushed(v: T) | TookOff(res: Option<T>)

  datatype By<X> = By(thread: nat, what: X)

  /**
   * `cells` are the allocated nodes. The rest is history that no step depends on: `chain`, the nodes
   * pushed and not popped; `spec`, the abstract stack; `begun`, the calls in the order they were made;
   * and `log`, the abstract operations in the order they were made, each by the thread whose call it is.
   * `due` above is what the abstract operation returned.
   */
  datatype State<T> = State(
    head: Ptr,
    counter: nat,
    cells: map<nat, Node<T>>,
    threads: seq<Thread<T>>,
    chain: seq<Ptr>,
    spec: seq<T>,
    begun: seq<By<Request<T>>>,
    log: seq<By<Operation<T>>>)

  /** What the environment picks: the next call, the fresh address, the contents of freed memory, weak failures. */
  datatype Choice<T> = Choice(push: bool, v: T, addr: nat, junk: Ptr, spurious: bool)

  function Top<T>(s: seq<T>): Option<T> {
    if s == [] then None else Some(s[0])
  }

  function Rest<T>(s: seq<T>): seq<T> {
    if s == [] then s else s[1..]
  }

  function Link<T>(cells: map<nat, Node<T>>, a: nat, next: Ptr): map<nat, Node<T>> {
    if a in cells then cells[a := cells[a].(next := next)] else cells
  }

  /** pop has loaded the head: on a null pointer it returns false, and that is its abstract operation. */
  function SeeHead<T>(s: State<T>, t: nat): State<T>
    requires t < |s.threads|
  {
    if s.head.addr == 0 then
      s.(spec := Rest(s.spec), threads := s.threads[t := Popped(None, Top(s.spec))],
         log := s.log + [By(t, TookOff(Top(s.spec)))])
    else s.(threads := s.threads[t := PopRead(s.head)])
  }

  /** A thread without a call makes one. */
  function Begin<T>(s: State<T>, t: nat, ch: Choice<T>): State<T>
    requires t < |s.threads|
  {
    s.(threads := s.threads[t := if ch.push then PushLoad(ch.v) else PopLoad],
       begun := s.begun + [By(t, if ch.push then PushCall(ch.v) else PopCall)])
  }

  /** One step of thread `t`. */
  function Do<T>(s: State<T>, t: nat, ch: Choice<T>): State<T>
    requires t < |s.threads|
  {
    match s.threads[t]
    case Idle => Begin(s, t, ch)
    case Popped(_, _) => Begin(s, t, ch)
    case PushLoad(v) => s.(threads := s.threads[t := PushNew(v, s.head)])
    case PushNew(v, prev) =>
      if ch.addr == 0 || ch.addr in s.cells then s
      else s.(cells := s.cells[ch.addr := Node(NULL, v)], threads := s.threads[t := PushTag(v, prev, ch.addr)])
    case PushTag(v, prev, a) =>
      s.(counter := s.counter + 1, threads := s.threads[t := PushLink(v, prev, Ptr(a, s.counter))])
    case PushLink(v, prev, node) =>
      s.(cells := Link(s.cells, node.addr, prev), threads := s.threads[t := PushCas(v, prev, node)])
    case PushCas(v, prev, node) =>
      if ch.spurious || s.head != prev then s.(threads := s.threads[t := PushLink(v, s.head, node)])
      else s.(head := node, threads := s.threads[t := Idle], chain := [node] + s.chain, spec := [v] + s.spec,
              log := s.log + [By(t, Pushed(v))])
    case PopLoad => SeeHead(s, t)
    case PopRead(prev) =>
      s.(threads := s.threads[t := PopCas(prev, if prev.addr in s.cells then s.cells[prev.addr].next else ch.junk)])
    case PopCas(prev, next) =>
      if ch.spurious || s.head != prev then SeeHead(s, t)
      else s.(head := next, threads := s.threads[t := PopTake(prev, Top(s.spec))],
              chain := Rest(s.chain), spec := Rest(s.spec), log := s.log + [By(t, TookOff(Top(s.spec)))])
    case PopTake(prev, due) =>
      s.(threads := s.threads[t := PopFree(prev, if prev.addr in s.cells then s.cells[prev.addr].value else ch.v, due)])
    case PopFree(prev, got, due) =>
      s.(cells := s.cells - {prev.addr}, threads := s.threads[t := Popped(Some(got), due)])
  }

  ghost predicate Init<T>(s: State<T>) {
    && s.head == NULL && s.counter == 0 && s.cells == map[] && s.chain == [] && s.spec == []
    && s.begun == [] && s.log == []
    && forall t :: 0 <= t < |s.threads| ==> s.threads[t] == Idle
  }

  ghost predicate Next<T(!new)>(s: State<T>, s': State<T>) {
    exists t: nat, ch :: t < |s.threads| && s' == Do(s, t, ch)
  }

  ghost predicate IsRun<T(!new)>(run: seq<State<T>>) {
    && |run| > 0 && Init(run[0])
    && forall k :: 0 <= k < |run| - 1 ==> Next(run[k], run[k + 1])
  }

  // ---- the invariant ----

  /** The node at place `i` of the chain, or the null pointer behind its end. */
  function At(chain: seq<Ptr>, i: nat): Ptr {
    if i < |chain| then chain[i] else NULL
  }

  /** Following `next` from the head visits the chain and ends in null; the values are the abstract stack. */
  ghost predicate Linked<T>(head: Ptr, cells: map<nat, Node<T>>, chain: seq<Ptr>, spec: seq<T>) {
    && |chain| == |spec| && head == At(chain, 0)
    && forall i :: 0 <= i < |chain| ==>
         && chain[i].addr != 0 && chain[i].addr in cells
         && cells[chain[i].addr] == Node(At(chain, i + 1), spec[i])
  }

  /** The thread holds the node at address `a`: it is pushing it, or has popped it. */
  predicate Owns<T>(th: Thread<T>, a: nat) {
    match th
    case PushTag(_, _, b) => a == b
    case PushLink(_, _, node) => a == node.addr
    case PushCas(_, _, node) => a == node.addr
    case PopTake(prev, _) => a == prev.addr
    case PopFree(prev, _, _) => a == prev.addr
    case _ => false
  }

  ghost predicate InChain(chain: seq<Ptr>, a: nat) {
    exists i :: 0 <= i < |chain| && chain[i].addr == a
  }

  ghost predicate Owned<T>(threads: seq<Thread<T>>, a: nat) {
    exists t :: 0 <= t < |threads| && Owns(threads[t], a)
  }

  /** Every allocated node is in the chain or held by a thread, never in two of these places. */
  ghost predicate Apart<T>(cells: map<nat, Node<T>>, chain: seq<Ptr>, threads: seq<Thread<T>>) {
    && (forall i, j :: 0 <= i < j < |chain| ==> chain[i].addr != chain[j].addr)
    && (forall t, a: nat {:trigger Owns(threads[t], a)} :: 0 <= t < |threads| && Owns(threads[t], a) ==>
          a != 0 && a in cells && !InChain(chain, a))
    && (forall t, u, a: nat {:trigger Owns(threads[t], a), Owns(threads[u], a)} ::
          0 <= t < u < |threads| && Owns(threads[t], a) ==> !Owns(threads[u], a))
    && (forall a :: a in cells ==> InChain(chain, a) || Owned(threads, a))
  }

  /** The thread is about to publish a node with this tag. */
  predicate Pending<T>(th: Thread<T>, tag: nat) {
    (th.PushLink? || th.PushCas?) && th.node.tag == tag
  }

  /** The thread has loaded `p` and may yet try to pop it. */
  predicate Saw<T>(th: Thread<T>, p: Ptr) {
    (th.PopRead? || th.PopCas?) && th.prev == p
  }

  /** Tags are given out once; a head that somebody has seen was published already. */
  ghost predicate Tagged<T>(counter: nat, chain: seq<Ptr>, threads: seq<Thread<T>>) {
    && (forall i :: 0 <= i < |chain| ==> chain[i].tag < counter)
    && (forall i, j :: 0 <= i < j < |chain| ==> chain[i].tag != chain[j].tag)
    && (forall t, g: nat {:trigger Pending(threads[t], g)} :: 0 <= t < |threads| && Pending(threads[t], g) ==>
          g < counter && forall i :: 0 <= i < |chain| ==> chain[i].tag != g)
    && (forall t, u, g: nat {:trigger Pending(threads[t], g), Pending(threads[u], g)} ::
          0 <= t < u < |threads| && Pending(threads[t], g) ==> !Pending(threads[u], g))
    && (forall t, p {:trigger Saw(threads[t], p)} :: 0 <= t < |threads| && Saw(threads[t], p) ==>
          p.addr != 0 && p.tag < counter && NotPending(threads, p.tag))
  }

  ghost predicate NotPending<T>(threads: seq<Thread<T>>, g: nat) {
    forall u :: 0 <= u < |threads| ==> !Pending(threads[u], g)
  }

  /** What a thread knows of its own node, of the next one, and of its result. */
  ghost predicate Knows<T>(cells: map<nat, Node<T>>, chain: seq<Ptr>, th: Thread<T>) {
    match th
    case PushTag(v, _, a) => a in cells && cells[a].value == v
    case PushLink(v, _, node) => node.addr in cells && cells[node.addr].value == v
    case PushCas(v, prev, node) => node.addr in cells && cells[node.addr] == Node(prev, v)
    case PopCas(prev, next) => forall i :: 0 <= i < |chain| && chain[i] == prev ==> next == At(chain, i + 1)
    case PopTake(prev, due) => prev.addr in cells && due == Some(cells[prev.addr].value)
    case PopFree(prev, got, due) => due == Some(got)
    case Popped(res, due) => res == due
    case _ => true
  }

  ghost predicate AllKnow<T>(cells: map<nat, Node<T>>, chain: seq<Ptr>, threads: seq<Thread<T>>) {
    forall t :: 0 <= t < |threads| ==> Knows(cells, chain, threads[t])
  }

  ghost predicate Inv<T>(s: State<T>) {
    && Linked(s.head, s.cells, s.chain, s.spec)
    && Apart(s.cells, s.chain, s.threads)
    && Tagged(s.counter, s.chain, s.threads)
    && AllKnow(s.cells, s.chain, s.threads)
  }

  // ---- steps that leave memory, head and tags alone ----

  lemma PlainKeepsApart<T>(cells: map<nat, Node<T>>, chain: seq<Ptr>, threads: seq<Thread<T>>, t: nat, th: Thread<T>)
    requires Apart(cells, chain, threads) && t < |threads|
    requires forall a: nat :: Owns(th, a) <==> Owns(threads[t], a)
    ensures Apart(cells, chain, threads[t := th])
  {
    var threads' := threads[t := th];
    forall u, a: nat | 0 <= u < |threads| ensures Owns(threads'[u], a) <==> Owns(threads[u], a) {}
    forall a: nat | Owned(threads, a) ensures Owned(threads', a) {
      var u :| 0 <= u < |threads| && Owns(threads[u], a);
      assert Owns(threads'[u], a);
    }
  }

  /** A thread may load the head, which is in the chain, or forget what it saw. */
  lemma PlainKeepsTagged<T>(counter: nat, chain: seq<Ptr>, threads: seq<Thread<T>>, t: nat, th: Thread<T>)
    requires Tagged(counter, chain, threads) && t < |threads|
    requires forall g: nat :: Pending(th, g) ==> Pending(threads[t], g)
    requires forall p :: Saw(th, p) ==> Saw(threads[t], p) || (p.addr != 0 && chain != [] && p == chain[0])
    ensures Tagged(counter, chain, threads[t := th])
  {
    var threads' := threads[t := th];
    forall u, g: nat | 0 <= u < |threads| && Pending(threads'[u], g) ensures Pending(threads[u], g) {}
    forall u, p | 0 <= u < |threads| && Saw(threads'[u], p)
      ensures p.addr != 0 && p.tag < counter && NotPending(threads', p.tag)
    {
      if Saw(threads[u], p) { assert NotPending(threads, p.tag); }
    }
  }

  ghost predicate SameMemory<T>(s: State<T>, s': State<T>) {
    s'.head == s.head && s'.counter == s.counter && s'.cells == s.cells && s'.chain == s.chain && s'.spec == s.spec
  }

  lemma PlainKeepsInv<T>(s: State<T>, t: nat, th: Thread<T>, s': State<T>)
    requires Inv(s) && t < |s.threads|
    requires forall a: nat :: Owns(th, a) <==> Owns(s.threads[t], a)
    requires forall g: nat :: Pending(th, g) ==> Pending(s.threads[t], g)
    requires forall p :: Saw(th, p) ==> Saw(s.threads[t], p) || (p.addr != 0 && p == s.head)
    requires Knows(s.cells, s.chain, th)
    requires SameMemory(s, s') && s'.threads == s.threads[t := th]
    ensures Inv(s')
  {
    PlainKeepsApart(s.cells, s.chain, s.threads, t, th);
    PlainKeepsTagged(s.counter, s.chain, s.threads, t, th);
  }

  // ---- steps on memory that nobody else uses ----

  ghost predicate SameExcept<T>(cells: map<nat, Node<T>>, cells': map<nat, Node<T>>, a: nat) {
    forall b :: b != a ==> (b in cells <==> b in cells') && (b in cells ==> cells[b] == cells'[b])
  }

  lemma ElsewhereKeepsLinked<T>(s: State<T>, cells': map<nat, Node<T>>, a: nat)
    requires Linked(s.head, s.cells, s.chain, s.spec) && SameExcept(s.cells, cells', a) && !InChain(s.chain, a)
    ensures Linked(s.head, cells', s.chain, s.spec)
  {
  }

  /** Other threads do not hold `a`, so what they know stays true. */
  lemma ElsewhereKeepsKnowledge<T>(cells: map<nat, Node<T>>, cells': map<nat, Node<T>>, a: nat, chain: seq<Ptr>,
      threads: seq<Thread<T>>, t: nat, th: Thread<T>)
    requires AllKnow(cells, chain, threads) && SameExcept(cells, cells', a) && t < |threads|
    requires forall u :: 0 <= u < |threads| && u != t ==> !Owns(threads[u], a)
    requires Knows(cells', chain, th)
    ensures AllKnow(cells', chain, threads[t := th])
  {
    forall u | 0 <= u < |threads| && u != t ensures Knows(cells', chain, threads[u]) {
      assert Knows(cells, chain, threads[u]);
    }
  }

  lemma AllocKeepsInv<T>(s: State<T>, t: nat, a: nat, node: Node<T>, th: Thread<T>, s': State<T>)
    requires Inv(s) && t < |s.threads| && a != 0 && a !in s.cells
    requires s.threads[t].PushNew? && th == PushTag(s.threads[t].v, s.threads[t].prev, a) && node == Node(NULL, th.v)
    requires s' == s.(cells := s.cells[a := node], threads := s.threads[t := th])
    ensures Inv(s')
  {
    ElsewhereKeepsLinked(s, s'.cells, a);
    ElsewhereKeepsKnowledge(s.cells, s'.cells, a, s.chain, s.threads, t, th);
    PlainKeepsTagged(s.counter, s.chain, s.threads, t, th);
    assert Owns(s'.threads[t], a);
    forall b | b in s'.cells ensures InChain(s.chain, b) || Owned(s'.threads, b) {
      if b != a && !InChain(s.chain, b) {
        var u :| 0 <= u < |s.threads| && Owns(s.threads[u], b);
        assert Owns(s'.threads[u], b);
      }
    }
  }

  lemma TagKeepsTagged<T>(counter: nat, chain: seq<Ptr>, threads: seq<Thread<T>>, t: nat, th: Thread<T>,
      threads': seq<Thread<T>>)
    requires Tagged(counter, chain, threads) && t < |threads| && th.PushLink? && th.node.tag == counter
    requires threads' == threads[t := th]
    ensures Tagged(counter + 1, chain, threads')
  {
    forall u, g: nat | 0 <= u < |threads| && u != t && Pending(threads'[u], g) ensures g < counter {
      assert Pending(threads[u], g);
    }
    forall u, p | 0 <= u < |threads| && Saw(threads'[u], p)
      ensures p.addr != 0 && p.tag < counter && NotPending(threads', p.tag)
    {
      assert Saw(threads[u], p) && NotPending(threads, p.tag);
    }
  }

  lemma TagKeepsInv<T>(s: State<T>, t: nat, th: Thread<T>, s': State<T>)
    requires Inv(s) && t < |s.threads| && s.threads[t].PushTag?
    requires th == PushLink(s.threads[t].v, s.threads[t].prev, Ptr(s.threads[t].addr, s.counter))
    requires s' == s.(counter := s.counter + 1, threads := s.threads[t := th])
    ensures Inv(s')
  {
    assert Knows(s.cells, s.chain, s.threads[t]);
    PlainKeepsApart(s.cells, s.chain, s.threads, t, th);
    TagKeepsTagged(s.counter, s.chain, s.threads, t, th, s'.threads);
  }

  lemma LinkKeepsInv<T>(s: State<T>, t: nat, th: Thread<T>, s': State<T>)
    requires Inv(s) && t < |s.threads| && s.threads[t].PushLink?
    requires th == PushCas(s.threads[t].v, s.threads[t].prev, s.threads[t].node)
    requires s' == s.(cells := Link(s.cells, th.node.addr, th.prev), threads := s.threads[t := th])
    ensures Inv(s')
  {
    var a := th.node.addr;
    assert Owns(s.threads[t], a) && Knows(s.cells, s.chain, s.threads[t]);
    ElsewhereKeepsLinked(s, s'.cells, a);
    ElsewhereKeepsKnowledge(s.cells, s'.cells, a, s.chain, s.threads, t, th);
    PlainKeepsTagged(s.counter, s.chain, s.threads, t, th);
    PlainKeepsApart(s.cells, s.chain, s.threads, t, th);
    assert s'.cells.Keys == s.cells.Keys;
  }

  lemma FreeKeepsInv<T>(s: State<T>, t: nat, th: Thread<T>, s': State<T>)
    requires Inv(s) && t < |s.threads| && s.threads[t].PopFree?
    requires th == Popped(Some(s.threads[t].got), s.threads[t].due)
    requires s' == s.(cells := s.cells - {s.threads[t].prev.addr}, threads := s.threads[t := th])
    ensures Inv(s')
  {
    var a := s.threads[t].prev.addr;
    assert Owns(s.threads[t], a) && Knows(s.cells, s.chain, s.threads[t]);
    ElsewhereKeepsLinked(s, s'.cells, a);
    ElsewhereKeepsKnowledge(s.cells, s'.cells, a, s.chain, s.threads, t, th);
    PlainKeepsTagged(s.counter, s.chain, s.threads, t, th);
    forall b | b in s'.cells ensures InChain(s.chain, b) || Owned(s'.threads, b) {
      if !InChain(s.chain, b) {
        var u :| 0 <= u < |s.threads| && Owns(s.threads[u], b);
        assert Owns(s'.threads[u], b);
      }
    }
  }

  // ---- the exchanges of the head ----

  /** A node of the chain, seen from the chain that begins with one more node. */
  lemma InLongerChain(chain: seq<Ptr>, node: Ptr, a: nat)
    ensures InChain([node] + chain, a) <==> a == node.addr || InChain(chain, a)
  {
    var chain' := [node] + chain;
    assert chain'[0] == node;
    if InChain(chain, a) {
      var i :| 0 <= i < |chain| && chain[i].addr == a;
      assert chain'[i + 1].addr == a;
    }
  }

  lemma PushKeepsApart<T>(s: State<T>, t: nat, node: Ptr, threads': seq<Thread<T>>)
    requires Apart(s.cells, s.chain, s.threads) && t < |s.threads| && s.threads[t].PushCas? && s.threads[t].node == node
    requires threads' == s.threads[t := Idle]
    ensures Apart(s.cells, [node] + s.chain, threads')
  {
    var chain' := [node] + s.chain;
    assert Owns(s.threads[t], node.addr);
    forall a: nat ensures InChain(chain', a) <==> a == node.addr || InChain(s.chain, a) {
      InLongerChain(s.chain, node, a);
    }
    forall i, j | 0 <= i < j < |chain'| ensures chain'[i].addr != chain'[j].addr {
      assert InChain(s.chain, chain'[j].addr);
    }
    forall u, a: nat | 0 <= u < |threads'| && Owns(threads'[u], a)
      ensures a != 0 && a in s.cells && !InChain(chain', a)
    {
      assert Owns(s.threads[u], a) && u != t;
    }
    forall b | b in s.cells && !InChain(chain', b) ensures Owned(threads', b) {
      var u :| 0 <= u < |s.threads| && Owns(s.threads[u], b);
      assert Owns(threads'[u], b);
    }
  }

  lemma PushKeepsTagged<T>(s: State<T>, t: nat, node: Ptr, threads': seq<Thread<T>>)
    requires Tagged(s.counter, s.chain, s.threads) && t < |s.threads| && s.threads[t].PushCas?
        && s.threads[t].node == node
    requires threads' == s.threads[t := Idle]
    ensures Tagged(s.counter, [node] + s.chain, threads')
  {
    assert Pending(s.threads[t], node.tag);
    PlainKeepsTagged(s.counter, s.chain, s.threads, t, Idle);
    forall u, g: nat | 0 <= u < |threads'| && Pending(threads'[u], g) ensures g != node.tag {
      assert Pending(s.threads[u], g) && u != t;
    }
  }

  /** Nobody has seen the new node, so whoever is about to pop still knows the right next node. */
  lemma PushKeepsKnowledge<T>(s: State<T>, t: nat, node: Ptr, threads': seq<Thread<T>>)
    requires Inv(s) && t < |s.threads| && s.threads[t].PushCas? && s.threads[t].node == node
    requires threads' == s.threads[t := Idle]
    ensures AllKnow(s.cells, [node] + s.chain, threads')
  {
    var chain' := [node] + s.chain;
    assert Pending(s.threads[t], node.tag);
    forall u | 0 <= u < |threads'| ensures Knows(s.cells, chain', threads'[u]) {
      if u != t {
        assert Knows(s.cells, s.chain, s.threads[u]);
        if s.threads[u].PopCas? {
          var p := s.threads[u].prev;
          assert Saw(s.threads[u], p) && NotPending(s.threads, p.tag);
          assert p != chain'[0];
          forall i | 0 <= i < |chain'| && chain'[i] == p ensures s.threads[u].next == At(chain', i + 1) {
            assert s.chain[i - 1] == p;
          }
        }
      }
    }
  }

  lemma PushKeepsInv<T>(s: State<T>, t: nat, s': State<T>)
    requires Inv(s) && t < |s.threads| && s.threads[t].PushCas? && s.threads[t].prev == s.head
    requires s'.head == s.threads[t].node && s'.threads == s.threads[t := Idle]
    requires s'.chain == [s.threads[t].node] + s.chain && s'.spec == [s.threads[t].v] + s.spec
    requires s'.cells == s.cells && s'.counter == s.counter
    ensures Inv(s')
  {
    var node := s.threads[t].node;
    assert Owns(s.threads[t], node.addr) && Knows(s.cells, s.chain, s.threads[t]);
    PushKeepsApart(s, t, node, s'.threads);
    PushKeepsTagged(s, t, node, s'.threads);
    PushKeepsKnowledge(s, t, node, s'.threads);
  }

  /** Whoever exchanges the head by the next node he read has read the right one: there is no ABA. */
  lemma PopSeesNext<T>(s: State<T>, t: nat)
    requires Inv(s) && t < |s.threads| && s.threads[t].PopCas? && s.threads[t].prev == s.head
    ensures s.chain != [] && s.chain[0] == s.head && s.threads[t].next == At(s.chain, 1)
  {
    assert Saw(s.threads[t], s.threads[t].prev) && Knows(s.cells, s.chain, s.threads[t]);
  }

  lemma PopKeepsApart<T>(s: State<T>, t: nat, due: Option<T>, threads': seq<Thread<T>>)
    requires Apart(s.cells, s.chain, s.threads) && t < |s.threads| && s.threads[t].PopCas?
    requires s.chain != [] && s.threads[t].prev == s.chain[0] && s.chain[0].addr != 0 && s.chain[0].addr in s.cells
    requires threads' == s.threads[t := PopTake(s.threads[t].prev, due)]
    ensures Apart(s.cells, s.chain[1..], threads')
  {
    var p, chain' := s.chain[0], s.chain[1..];
    assert s.chain == [p] + chain';
    forall a: nat ensures InChain(s.chain, a) <==> a == p.addr || InChain(chain', a) { InLongerChain(chain', p, a); }
    assert !InChain(chain', p.addr);
    forall u, a: nat | 0 <= u < |threads'| && Owns(threads'[u], a)
      ensures a != 0 && a in s.cells && !InChain(chain', a) && (u != t ==> a != p.addr)
    {
      if u != t { assert Owns(s.threads[u], a); }
    }
    assert Owns(threads'[t], p.addr);
    forall b | b in s.cells && !InChain(chain', b) ensures Owned(threads', b) {
      if b != p.addr {
        var u :| 0 <= u < |s.threads| && Owns(s.threads[u], b);
        assert Owns(threads'[u], b);
      }
    }
  }

  lemma PopKeepsKnowledge<T>(s: State<T>, t: nat, th: Thread<T>, threads': seq<Thread<T>>)
    requires AllKnow(s.cells, s.chain, s.threads) && t < |s.threads| && s.chain != []
    requires Knows(s.cells, s.chain[1..], th) && threads' == s.threads[t := th]
    ensures AllKnow(s.cells, s.chain[1..], threads')
  {
    var chain' := s.chain[1..];
    forall u | 0 <= u < |threads'| && u != t ensures Knows(s.cells, chain', threads'[u]) {
      assert Knows(s.cells, s.chain, s.threads[u]);
      if s.threads[u].PopCas? {
        forall i | 0 <= i < |chain'| && chain'[i] == s.threads[u].prev ensures s.threads[u].next == At(chain', i + 1) {
          assert s.chain[i + 1] == s.threads[u].prev;
        }
      }
    }
  }

  lemma PopKeepsInv<T>(s: State<T>, t: nat, th: Thread<T>, s': State<T>)
    requires Inv(s) && t < |s.threads| && s.threads[t].PopCas? && s.threads[t].prev == s.head
    requires th == PopTake(s.threads[t].prev, Top(s.spec))
    requires s'.head == s.threads[t].next && s'.threads == s.threads[t := th]
    requires s'.chain == Rest(s.chain) && s'.spec == Rest(s.spec) && s'.cells == s.cells && s'.counter == s.counter
    ensures Inv(s')
  {
    PopSeesNext(s, t);
    PopKeepsApart(s, t, Top(s.spec), s'.threads);
    PopKeepsKnowledge(s, t, th, s'.threads);
    PlainKeepsTagged(s.counter, s.chain, s.threads, t, th);
  }

  // ---- all steps ----

  /** The load of a null head is the abstract pop of an empty stack. */
  lemma SeeHeadKeepsInv<T>(s: State<T>, t: nat)
    requires Inv(s) && t < |s.threads| && (s.threads[t].PopLoad? || s.threads[t].PopCas?)
    ensures Inv(SeeHead(s, t))
  {
    if s.head.addr == 0 {
      PlainKeepsInv(s, t, Popped(None, Top(s.spec)), SeeHead(s, t));
    } else {
      PlainKeepsInv(s, t, PopRead(s.head), SeeHead(s, t));
    }
  }

  lemma ReadKeepsInv<T>(s: State<T>, t: nat, ch: Choice<T>)
    requires Inv(s) && t < |s.threads| && s.threads[t].PopRead?
    ensures Inv(Do(s, t, ch))
  {
    PlainKeepsInv(s, t, Do(s, t, ch).threads[t], Do(s, t, ch));
  }

  lemma StepKeepsInv<T>(s: State<T>, t: nat, ch: Choice<T>)
    requires Inv(s) && t < |s.threads|
    ensures Inv(Do(s, t, ch))
  {
    var s' := Do(s, t, ch);
    var th := s'.threads[t];
    assert Knows(s.cells, s.chain, s.threads[t]);
    match s.threads[t]
    case PushNew(v, _) => if ch.addr != 0 && ch.addr !in s.cells { AllocKeepsInv(s, t, ch.addr, Node(NULL, v), th,
        s'); }
    case PushTag(_, _, _) => TagKeepsInv(s, t, th, s');
    case PushLink(_, _, _) => LinkKeepsInv(s, t, th, s');
    case PushCas(_, prev, _) =>
      if ch.spurious || s.head != prev { PlainKeepsInv(s, t, th, s'); } else { PushKeepsInv(s, t, s'); }
    case PopLoad => SeeHeadKeepsInv(s, t);
    case PopRead(_) => ReadKeepsInv(s, t, ch);
    case PopCas(prev, _) =>
      if ch.spurious || s.head != prev { SeeHeadKeepsInv(s, t); } else { PopKeepsInv(s, t, th, s'); }
    case PopTake(_, _) => PlainKeepsInv(s, t, th, s');
    case PopFree(_, _, _) => FreeKeepsInv(s, t, th, s');
    case _ => PlainKeepsInv(s, t, th, s');
  }

  lemma {:induction false} RunKeepsInv<T(!new)>(run: seq<State<T>>, k: nat)
    requires IsRun(run) && k < |run|
    ensures Inv(run[k])
  {
    if k > 0 {
      RunKeepsInv(run, k - 1);
      assert Next(run[k - 1], run[k - 1 + 1]);
      var t: nat, ch :| t < |run[k - 1].threads| && run[k] == Do(run[k - 1], t, ch);
      StepKeepsInv(run[k - 1], t, ch);
    }
  }

  // ---- what users may rely on ----

  /** Following `next` from `p` meets the values `vs` and then null. */
  ghost predicate Lists<T>(cells: map<nat, Node<T>>, p: Ptr, vs: seq<T>)
    decreases |vs|
  {
    if vs == [] then p.addr == 0
    else p.addr != 0 && p.addr in cells && cells[p.addr].value == vs[0] && Lists(cells, cells[p.addr].next, vs[1..])
  }

  lemma {:induction false} ListsIsUnique<T>(cells: map<nat, Node<T>>, p: Ptr, vs: seq<T>, ws: seq<T>)
    requires Lists(cells, p, vs) && Lists(cells, p, ws)
    ensures vs == ws
    decreases |vs|
  {
    if vs != [] && ws != [] { ListsIsUnique(cells, cells[p.addr].next, vs[1..], ws[1..]); }
  }

  lemma {:induction false} LinkedLists<T>(head: Ptr, cells: map<nat, Node<T>>, chain: seq<Ptr>, spec: seq<T>, i: nat)
    requires Linked(head, cells, chain, spec) && i <= |chain|
    ensures Lists(cells, At(chain, i), spec[i..])
    decreases |chain| - i
  {
    if i < |chain| { LinkedLists(head, cells, chain, spec, i + 1); }
  }

  /** In every reachable state the linked list in memory is the abstract stack. */
  lemma MemoryIsStack<T(!new)>(run: seq<State<T>>, k: nat)
    requires IsRun(run) && k < |run|
    ensures Lists(run[k].cells, run[k].head, run[k].spec)
    ensures run[k].head.addr == 0 <==> run[k].spec == []
  {
    RunKeepsInv(run, k);
    LinkedLists(run[k].head, run[k].cells, run[k].chain, run[k].spec, 0);
    assert run[k].spec[0..] == run[k].spec;
  }

  /** A push whose exchange succeeds puts its value on top of the list in memory. */
  lemma ExchangePushes<T(!new)>(run: seq<State<T>>, k: nat, t: nat, ch: Choice<T>, vs: seq<T>)
    requires IsRun(run) && k < |run| - 1 && t < |run[k].threads| && run[k + 1] == Do(run[k], t, ch)
    requires run[k].threads[t].PushCas? && !ch.spurious && run[k].head == run[k].threads[t].prev
    requires Lists(run[k].cells, run[k].head, vs)
    ensures Lists(run[k + 1].cells, run[k + 1].head, [run[k].threads[t].v] + vs)
  {
    MemoryIsStack(run, k);
    MemoryIsStack(run, k + 1);
    ListsIsUnique(run[k].cells, run[k].head, vs, run[k].spec);
  }

  /**
   * A pop whose exchange succeeds takes the top of the list in memory off, although the next node it
   * installs was read earlier, perhaps while the node was free or part of another push.
   */
  lemma ExchangePops<T(!new)>(run: seq<State<T>>, k: nat, t: nat, ch: Choice<T>, vs: seq<T>)
    requires IsRun(run) && k < |run| - 1 && t < |run[k].threads| && run[k + 1] == Do(run[k], t, ch)
    requires run[k].threads[t].PopCas? && !ch.spurious && run[k].head == run[k].threads[t].prev
    requires Lists(run[k].cells, run[k].head, vs)
    ensures vs != [] && Lists(run[k + 1].cells, run[k + 1].head, vs[1..])
    ensures run[k + 1].threads[t] == PopTake(run[k].head, Some(vs[0]))
  {
    RunKeepsInv(run, k);
    PopSeesNext(run[k], t);
    MemoryIsStack(run, k);
    MemoryIsStack(run, k + 1);
    ListsIsUnique(run[k].cells, run[k].head, vs, run[k].spec);
  }

  /** A pop is about to return false only at a moment when the list in memory is empty. */
  lemma FalseMeansEmpty<T(!new)>(run: seq<State<T>>, k: nat, t: nat, ch: Choice<T>, vs: seq<T>)
    requires IsRun(run) && k < |run| - 1 && t < |run[k].threads| && run[k + 1] == Do(run[k], t, ch)
    requires run[k + 1].threads[t].Popped? && run[k + 1].threads[t].res.None?
    requires Lists(run[k].cells, run[k].head, vs)
    ensures vs == [] && run[k + 1].threads[t].due == None && run[k + 1].spec == []
  {
    hide IsRun, Lists;
    MemoryIsStack(run, k);
    ListsIsUnique(run[k].cells, run[k].head, vs, run[k].spec);
  }

  /** Every pop returns what its abstract operation returned: the top, or nothing from an empty stack. */
  lemma PopReturnsItsDue<T(!new)>(run: seq<State<T>>, k: nat, t: nat)
    requires IsRun(run) && k < |run| && t < |run[k].threads| && run[k].threads[t].Popped?
    ensures run[k].threads[t].res == run[k].threads[t].due
  {
    RunKeepsInv(run, k);
    assert Knows(run[k].cells, run[k].chain, run[k].threads[t]);
  }

  ghost predicate InPush<T>(th: Thread<T>, v: T) {
    (th.PushLoad? || th.PushNew? || th.PushTag? || th.PushLink? || th.PushCas?) && th.v == v
  }

  /** Inside pop, before and after the exchange of the head. */
  predicate InPop<T>(th: Thread<T>) {
    th.PopLoad? || th.PopRead? || th.PopCas?
  }

  ghost predicate HasPopped<T>(th: Thread<T>, due: Option<T>) {
    (th.PopTake? || th.PopFree?) && th.due == due
  }

  /**
   * A push goes on, with the same value and the abstract stack as it is, or ends with its value pushed.
   * A pop goes on, or makes its abstract operation, keeps the result and ends; no other step makes one.
   */
  lemma AbstractOperations<T>(s: State<T>, t: nat, ch: Choice<T>)
    requires t < |s.threads|
    ensures var th, s' := s.threads[t], Do(s, t, ch);
            var th' := s'.threads[t];
            && (forall v :: InPush(th, v) ==>
                  (InPush(th', v) && s'.spec == s.spec) || (th' == Idle && s'.spec == [v] + s.spec))
            && (InPop(th) ==>
                  || (InPop(th') && s'.spec == s.spec)
                  || ((HasPopped(th', Top(s.spec)) || th' == Popped(None, Top(s.spec))) && s'.spec == Rest(s.spec)))
            && (forall due :: HasPopped(th, due) ==>
                  (HasPopped(th', due) || (th'.Popped? && th'.due == due)) && s'.spec == s.spec)
            && (th.Idle? || th.Popped? ==> s'.spec == s.spec)
  {
  }

  /**
   * Nodes in the list, nodes held by a push or a pop, and free addresses are disjoint; what a thread
   * reads the value of or deletes is allocated and held by nobody else.
   */
  lemma NodesHaveOnePlace<T(!new)>(run: seq<State<T>>, k: nat, t: nat, a: nat)
    requires IsRun(run) && k < |run| && t < |run[k].threads| && Owns(run[k].threads[t], a)
    ensures a in run[k].cells && !InChain(run[k].chain, a)
    ensures forall u :: 0 <= u < |run[k].threads| && u != t ==> !Owns(run[k].threads[u], a)
    ensures forall b :: b in run[k].cells <==> InChain(run[k].chain, b) || Owned(run[k].threads, b)
  {
    RunKeepsInv(run, k);
    forall u | 0 <= u < |run[k].threads| && u != t ensures !Owns(run[k].threads[u], a) {
      assert Owns(run[k].threads[if u < t then u else t], a) ==> !Owns(run[k].threads[if u < t then t else u], a);
    }
    forall b | Owned(run[k].threads, b) ensures b in run[k].cells {
      var u :| 0 <= u < |run[k].threads| && Owns(run[k].threads[u], b);
      assert Owns(run[k].threads[u], b);
    }
  }
}
