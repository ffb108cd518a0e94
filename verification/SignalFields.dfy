/** The fields of a signal, and what its operations do to them. */
module SignalFields {
  import opened Options

  /** A list node: `id` is what an iterator to it names, `conn` (history) the connection it was made for. */
  datatype Entry<F> = Entry(id: nat, conn: nat, fn: F)

  /** sig_connection: id_ and tmp_id_ (None is the end iterator) and already_disconnect_. */
  datatype Link = Link(id: Option<nat>, tmp: Option<nat>, closed: bool)

  /** The fields of a signal and of all its connections; ids from `nextId` on have not been used. */
  datatype Fields<F> = Fields(
    slots: seq<Entry<F>>,
    toAdd: seq<Entry<F>>,
    toDelete: seq<nat>,
    guard: bool,
    links: seq<Link>,
    nextId: nat)

  /** list::erase. */
  function Erase<F>(list: seq<Entry<F>>, id: nat): seq<Entry<F>> {
    if list == [] then []
    else if list[0].id == id then list[1..]
    else [list[0]] + Erase(list[1..], id)
  }

  function EraseAll<F>(list: seq<Entry<F>>, ids: seq<nat>): seq<Entry<F>> {
    if ids == [] then list else Erase(EraseAll(list, ids[..|ids| - 1]), ids[|ids| - 1])
  }

  /** The waiting entries as they enter the list of slots. */
  function Moved<F>(adds: seq<Entry<F>>, nextId: nat): (es: seq<Entry<F>>)
    ensures |es| == |adds|
    ensures forall k :: 0 <= k < |es| ==> es[k] == Entry(nextId + k, adds[k].conn, adds[k].fn)
  {
    seq(|adds|, k requires 0 <= k < |adds| => Entry(nextId + k, adds[k].conn, adds[k].fn))
  }

  function SetId(links: seq<Link>, c: nat, id: nat): seq<Link> {
    if c < |links| then links[c := Link(Some(id), None, links[c].closed)] else links
  }

  function SetIds<F>(links: seq<Link>, adds: seq<Entry<F>>, nextId: nat): (ls: seq<Link>)
    ensures |ls| == |links|
  {
    if adds == [] then links
    else SetId(SetIds(links, adds[..|adds| - 1], nextId), adds[|adds| - 1].conn, nextId + |adds| - 1)
  }

  function Connected<F>(s: Fields<F>, fn: F): Fields<F> {
    var e := Entry(s.nextId, |s.links|, fn);
    if s.guard then s.(toAdd := s.toAdd + [e], links := s.links + [Link(None, Some(s.nextId), false)],
        nextId := s.nextId + 1)
    else s.(slots := s.slots + [e], links := s.links + [Link(Some(s.nextId), None, false)], nextId := s.nextId + 1)
  }

  function Disconnected<F>(s: Fields<F>, c: nat): Fields<F>
    requires c < |s.links|
  {
    var l := s.links[c];
    if l.closed then s
    else if s.guard then
      s.(toDelete := if l.id.Some? then s.toDelete + [l.id.value] else s.toDelete,
         toAdd := if l.tmp.Some? then Erase(s.toAdd, l.tmp.value) else s.toAdd,
         links := s.links[c := l.(closed := true)])
    else
      s.(slots := if l.id.Some? then Erase(s.slots, l.id.value) else s.slots, links := s.links[c := l.(closed := true)])
  }

  /** The destructor of the outermost slot_guard. */
  function Flushed<F>(s: Fields<F>): Fields<F> {
    Fields(EraseAll(s.slots, s.toDelete) + Moved(s.toAdd, s.nextId), [], [], false,
           SetIds(s.links, s.toAdd, s.nextId), s.nextId + |s.toAdd|)
  }

  // ---- lists of slots ----

  /** A connection and its slot. */
  datatype Sub<F> = Sub(conn: nat, fn: F)

  function Subs<F>(list: seq<Entry<F>>): (ss: seq<Sub<F>>)
    ensures |ss| == |list| && forall i :: 0 <= i < |ss| ==> ss[i] == Sub(list[i].conn, list[i].fn)
  {
    seq(|list|, i requires 0 <= i < |list| => Sub(list[i].conn, list[i].fn))
  }

  /** The entries that are not to be deleted. */
  function Keep<F>(list: seq<Entry<F>>, gone: seq<nat>): seq<Entry<F>> {
    if list == [] then []
    else if list[0].id in gone then Keep(list[1..], gone)
    else [list[0]] + Keep(list[1..], gone)
  }

  function Drop<F>(subs: seq<Sub<F>>, c: nat): seq<Sub<F>> {
    if subs == [] then []
    else if subs[0].conn == c then Drop(subs[1..], c)
    else [subs[0]] + Drop(subs[1..], c)
  }

  ghost predicate HasId<F>(list: seq<Entry<F>>, id: nat) {
    exists i :: 0 <= i < |list| && list[i].id == id
  }

  ghost predicate HasConn<F>(list: seq<Entry<F>>, c: nat) {
    exists i :: 0 <= i < |list| && list[i].conn == c
  }

  ghost predicate DistinctIds<F>(list: seq<Entry<F>>) {
    forall i, j :: 0 <= i < j < |list| ==> list[i].id != list[j].id
  }

  lemma {:induction false} DropAppend<F>(a: seq<Sub<F>>, b: seq<Sub<F>>, c: nat)
    ensures Drop(a + b, c) == Drop(a, c) + Drop(b, c)
  {
    if a == [] {
      assert a + b == b;
    } else {
      assert (a + b)[0] == a[0] && (a + b)[1..] == a[1..] + b;
      DropAppend(a[1..], b, c);
    }
  }

  lemma {:induction false} DropNothing<F>(a: seq<Sub<F>>, c: nat)
    requires forall i :: 0 <= i < |a| ==> a[i].conn != c
    ensures Drop(a, c) == a
  {
    if a != [] { DropNothing(a[1..], c); }
  }

  /** What is kept is part of the list, in order; every other entry is to be deleted. */
  lemma {:induction false} KeepMembers<F>(list: seq<Entry<F>>, gone: seq<nat>)
    ensures forall i :: 0 <= i < |Keep(list, gone)| ==> Keep(list, gone)[i] in list && Keep(list, gone)[i].id !in gone
    ensures forall i :: 0 <= i < |list| && list[i].id !in gone ==> list[i] in Keep(list, gone)
    ensures DistinctIds(list) ==> DistinctIds(Keep(list, gone))
  {
    if list != [] {
      KeepMembers(list[1..], gone);
      var rest := Keep(list[1..], gone);
      assert forall i :: 0 <= i < |rest| ==> rest[i] in list[1..];
      forall i | 0 <= i < |list| && list[i].id !in gone ensures list[i] in Keep(list, gone) {
        if i > 0 { assert list[1..][i - 1] == list[i] && list[i] in rest; } else { assert Keep(list,
            gone)[0] == list[0]; }
      }
    }
  }

  lemma {:induction false} KeepAll<F>(list: seq<Entry<F>>, gone: seq<nat>)
    requires forall i :: 0 <= i < |list| ==> list[i].id !in gone
    ensures Keep(list, gone) == list
  {
    if list != [] { KeepAll(list[1..], gone); }
  }

  lemma SubsCons<F>(e: Entry<F>, list: seq<Entry<F>>)
    ensures Subs([e] + list) == [Sub(e.conn, e.fn)] + Subs(list)
  {
  }

  /** Erasing one entry of a list of distinct ones drops its connection. */
  lemma {:induction false} EraseDrops<F>(list: seq<Entry<F>>, id: nat, c: nat)
    requires DistinctIds(list) && HasId(list, id)
    requires forall i :: 0 <= i < |list| ==> (list[i].id == id <==> list[i].conn == c)
    ensures Subs(Erase(list, id)) == Drop(Subs(list), c)
  {
    var rest := list[1..];
    assert Subs(list)[1..] == Subs(rest);
    if list[0].id == id {
      DropNothing(Subs(rest), c);
    } else {
      var i :| 0 <= i < |list| && list[i].id == id;
      assert rest[i - 1].id == id;
      EraseDrops(rest, id, c);
      SubsCons(list[0], Erase(rest, id));
    }
  }

  /** One more entry to delete is one connection less to keep. */
  lemma {:induction false} KeepDrops<F>(list: seq<Entry<F>>, gone: seq<nat>, id: nat, c: nat)
    requires forall i :: 0 <= i < |list| ==> (list[i].id == id <==> list[i].conn == c)
    ensures Subs(Keep(list, gone + [id])) == Drop(Subs(Keep(list, gone)), c)
  {
    if list != [] {
      KeepDrops(list[1..], gone, id, c);
      var rest, rest' := Keep(list[1..], gone), Keep(list[1..], gone + [id]);
      if list[0].id !in gone {
        assert Subs([list[0]] + rest)[1..] == Subs(rest);
        assert Subs([list[0]] + rest') == [Sub(list[0].conn, list[0].fn)] + Subs(rest');
      }
    }
  }

  /** Erasing what is kept: one more entry to delete. */
  lemma {:induction false} EraseKeeps<F>(list: seq<Entry<F>>, gone: seq<nat>, id: nat)
    requires DistinctIds(list)
    ensures Erase(Keep(list, gone), id) == Keep(list, gone + [id])
  {
    if list != [] {
      EraseKeeps(list[1..], gone, id);
      var rest := Keep(list[1..], gone);
      if list[0].id !in gone {
        assert ([list[0]] + rest)[1..] == rest;
        if list[0].id == id { KeepSame(list[1..], gone, id); }
      }
    }
  }

  lemma {:induction false} KeepSame<F>(list: seq<Entry<F>>, gone: seq<nat>, id: nat)
    requires forall i :: 0 <= i < |list| ==> list[i].id != id
    ensures Keep(list, gone + [id]) == Keep(list, gone)
  {
    if list != [] { KeepSame(list[1..], gone, id); }
  }

  lemma {:induction false} EraseAllKeeps<F>(list: seq<Entry<F>>, ids: seq<nat>)
    requires DistinctIds(list)
    ensures EraseAll(list, ids) == Keep(list, ids)
  {
    if ids == [] {
      KeepAll(list, []);
    } else {
      var n := |ids| - 1;
      EraseAllKeeps(list, ids[..n]);
      EraseKeeps(list, ids[..n], ids[n]);
      assert ids == ids[..n] + [ids[n]];
    }
  }

  lemma {:induction false} EraseMembers<F>(list: seq<Entry<F>>, id: nat)
    requires DistinctIds(list)
    ensures forall i :: 0 <= i < |Erase(list, id)| ==> Erase(list, id)[i] in list && Erase(list, id)[i].id != id
    ensures forall i :: 0 <= i < |list| && list[i].id != id ==> list[i] in Erase(list, id)
    ensures DistinctIds(Erase(list, id))
  {
    EraseKeeps(list, [], id);
    KeepAll(list, []);
    assert [] + [id] == [id];
    KeepMembers(list, [id]);
  }
}
