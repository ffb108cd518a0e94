/** The tagged stack used by one thread. */
module Stacks {
  import opened StackSteps

  class Stack<T> {
    var head: Ptr
    var counter: nat
    var cells: map<nat, Node<T>>   // the allocated nodes
    ghost var chain: seq<Ptr>      // the nodes in the order of their links
    ghost var contents: seq<T>     // the values, top first

    ghost predicate Valid()
      reads this
    {
      && Linked(head, cells, chain, contents)
      && Apart(cells, chain, [])
    }

    constructor ()
      ensures Valid() && contents == [] && cells == map[] && counter == 0
    {
      head, counter, cells := NULL, 0, map[];
      chain, contents := [], [];
    }

    method Empty() returns (b: bool)
      requires Valid()
      ensures b <==> contents == []
    {
      b := head.addr == 0;
    }

    /** `failures` is how often the weak exchange fails for no reason; `addr` is where the new node is put. */
    method Push(value: T, addr: nat, failures: nat) returns (ok: bool)
      requires Valid() && addr != 0 && addr !in cells
      modifies this
      ensures Valid() && ok && contents == [value] + old(contents)
      ensures cells.Keys == old(cells.Keys) + {addr} && counter == old(counter) + 1
      ensures head == Ptr(addr, old(counter))
    {
      var oldHead := head;
      var newHead := Ptr(addr, counter);
      cells := cells[addr := Node(NULL, value)];
      counter := counter + 1;
      cells := Link(cells, addr, oldHead);
      var left := failures;
      while left > 0 || head != oldHead
        invariant head == old(head) == oldHead && counter == old(counter) + 1
        invariant cells == old(cells)[addr := Node(oldHead, value)]
        invariant chain == old(chain) && contents == old(contents)
        decreases left
      {
        oldHead := head;
        cells := Link(cells, addr, oldHead);
        left := left - 1;
      }
      head := newHead;
      PushLinks(old(head), old(cells), cells, chain, contents, newHead, value);
      chain, contents := [newHead] + chain, [value] + contents;
      ok := true;
    }

    /** Takes the top value off and frees its node, unless the stack is empty. */
    method Pop(initial: T, failures: nat) returns (ok: bool, value: T)
      requires Valid()
      modifies this
      ensures Valid() && counter == old(counter)
      ensures ok <==> old(contents) != []
      ensures ok ==> value == old(contents)[0] && contents == old(contents)[1..]
      ensures ok ==> old(head).addr in old(cells) && cells == old(cells) - {old(head).addr}
      ensures !ok ==> value == initial && contents == old(contents) && cells == old(cells)
    {
      var oldHead := head;
      value := initial;
      if oldHead.addr == 0 {
        return false, value;
      }
      var newHead := cells[oldHead.addr].next;
      var left := failures;
      while left > 0 || head != oldHead
        invariant head == old(head) == oldHead && newHead == cells[oldHead.addr].next && cells == old(cells)
        decreases left
      {
        oldHead := head;
        newHead := cells[oldHead.addr].next;
        left := left - 1;
      }
      head := newHead;
      value := cells[oldHead.addr].value;
      cells := cells - {oldHead.addr};
      PopLinks(old(head), old(cells), cells, chain, contents);
      chain, contents := chain[1..], contents[1..];
      ok := true;
    }
  }

  lemma PushApart<T>(cells: map<nat, Node<T>>, cells': map<nat, Node<T>>, chain: seq<Ptr>, node: Ptr)
    requires Apart(cells, chain, []) && node.addr !in cells && cells'.Keys == cells.Keys + {node.addr}
    requires forall i :: 0 <= i < |chain| ==> chain[i].addr in cells
    ensures Apart(cells', [node] + chain, [])
  {
    var none: seq<Thread<T>> := [];
    forall a | a in cells' ensures InChain([node] + chain, a) {
      InLongerChain(chain, node, a);
      assert a in cells ==> InChain(chain, a) || Owned(none, a);
    }
  }

  lemma PushLinks<T>(head: Ptr, cells: map<nat, Node<T>>, cells': map<nat, Node<T>>, chain: seq<Ptr>, spec: seq<T>,
      node: Ptr, v: T)
    requires Linked(head, cells, chain, spec) && Apart(cells, chain, [])
    requires node.addr != 0 && node.addr !in cells && cells' == cells[node.addr := Node(head, v)]
    ensures Linked(node, cells', [node] + chain, [v] + spec) && Apart(cells', [node] + chain, [])
  {
    PushApart(cells, cells', chain, node);
  }

  lemma PopApart<T>(cells: map<nat, Node<T>>, cells': map<nat, Node<T>>, chain: seq<Ptr>)
    requires Apart(cells, chain, []) && chain != [] && cells'.Keys == cells.Keys - {chain[0].addr}
    ensures Apart(cells', chain[1..], [])
  {
    var none: seq<Thread<T>> := [];
    assert chain == [chain[0]] + chain[1..];
    forall a | a in cells' ensures InChain(chain[1..], a) {
      InLongerChain(chain[1..], chain[0], a);
      assert InChain(chain, a) || Owned(none, a);
    }
  }

  lemma PopLinks<T>(head: Ptr, cells: map<nat, Node<T>>, cells': map<nat, Node<T>>, chain: seq<Ptr>, spec: seq<T>)
    requires Linked(head, cells, chain, spec) && Apart(cells, chain, []) && chain != []
    requires cells' == cells - {head.addr}
    ensures Linked(cells[head.addr].next, cells', chain[1..], spec[1..]) && Apart(cells', chain[1..], [])
  {
    PopApart(cells, cells', chain);
  }
}
