/** What every operation of a signal keeps, and what it does to the slots that are to stay. */
module SignalLaws {
  import opened Options
  import opened SignalFields

  /** What the deferred operations will leave. */
  function Live<F>(sig: Fields<F>): seq<Sub<F>> {
    Subs(Keep(sig.slots, sig.toDelete)) + Subs(sig.toAdd)
  }

  // ---- the invariant of a signal ----

  ghost predicate ListOk<F>(list: seq<Entry<F>>, nextId: nat) {
    DistinctIds(list) && forall i :: 0 <= i < |list| ==> list[i].id < nextId
  }

  /** The connection of an entry knows it, and is closed exactly if the entry is to be deleted. */
  ghost predicate SlotsKnown<F>(slots: seq<Entry<F>>, toDelete: seq<nat>, links: seq<Link>) {
    forall i :: 0 <= i < |slots| ==>
      slots[i].conn < |links| && links[slots[i].conn] == Link(Some(slots[i].id), None, slots[i].id in toDelete)
  }

  ghost predicate AddsKnown<F>(adds: seq<Entry<F>>, links: seq<Link>) {
    forall i :: 0 <= i < |adds| ==>
      adds[i].conn < |links| && links[adds[i].conn] == Link(None, Some(adds[i].id), false)
  }

  ghost predicate DeletesOk<F>(slots: seq<Entry<F>>, toDelete: seq<nat>) {
    && (forall i, j :: 0 <= i < j < |toDelete| ==> toDelete[i] != toDelete[j])
    && (forall i :: 0 <= i < |toDelete| ==> HasId(slots, toDelete[i]))
  }

  /** Every open connection has an entry. */
  ghost predicate OpenHeld<F>(slots: seq<Entry<F>>, adds: seq<Entry<F>>, links: seq<Link>) {
    forall c :: 0 <= c < |links| && !links[c].closed ==> HasConn(slots, c) || HasConn(adds, c)
  }

  ghost predicate Inv<F>(s: Fields<F>) {
    && ListOk(s.slots, s.nextId) && ListOk(s.toAdd, s.nextId)
    && SlotsKnown(s.slots, s.toDelete, s.links)
    && AddsKnown(s.toAdd, s.links)
    && DeletesOk(s.slots, s.toDelete)
    && OpenHeld(s.slots, s.toAdd, s.links)
    && (!s.guard ==> s.toDelete == [] && s.toAdd == [])
  }

  // ---- connect ----

  lemma HeldAfterAppend<F>(list: seq<Entry<F>>, e: Entry<F>)
    ensures forall c: nat :: HasConn(list, c) ==> HasConn(list + [e], c)
    ensures forall id: nat :: HasId(list, id) ==> HasId(list + [e], id)
    ensures HasConn(list + [e], e.conn)
  {
    var list' := list + [e];
    assert list'[|list|] == e;
    forall c: nat | HasConn(list, c) ensures HasConn(list', c) {
      var i :| 0 <= i < |list| && list[i].conn == c;
      assert list'[i].conn == c;
    }
    forall id: nat | HasId(list, id) ensures HasId(list', id) {
      var i :| 0 <= i < |list| && list[i].id == id;
      assert list'[i].id == id;
    }
  }

  lemma ConnectKeepsInv<F>(s: Fields<F>, fn: F)
    requires Inv(s)
    ensures Inv(Connected(s, fn))
  {
    var e := Entry(s.nextId, |s.links|, fn);
    HeldAfterAppend(s.slots, e);
    HeldAfterAppend(s.toAdd, e);
  }

  lemma ConnectAdds<F>(s: Fields<F>, fn: F)
    requires Inv(s)
    ensures Live(Connected(s, fn)) == Live(s) + [Sub(|s.links|, fn)]
  {
    var e := Entry(s.nextId, |s.links|, fn);
    if s.guard {
      assert Subs(s.toAdd + [e]) == Subs(s.toAdd) + [Sub(|s.links|, fn)];
    } else {
      KeepAll(s.slots, []);
      KeepAll(s.slots + [e], []);
      assert Subs(s.slots + [e]) == Subs(s.slots) + [Sub(|s.links|, fn)];
    }
  }

  // ---- disconnect ----

  /** The entry that an open connection refers to. */
  lemma OpenEntry<F>(s: Fields<F>, c: nat)
    requires Inv(s) && c < |s.links| && !s.links[c].closed
    ensures s.links[c].id.Some? <==> s.links[c].tmp.None?
    ensures s.links[c].id.Some? ==> HasId(s.slots, s.links[c].id.value) && s.links[c].id.value !in s.toDelete
    ensures s.links[c].tmp.Some? ==> HasId(s.toAdd, s.links[c].tmp.value) && s.guard
    ensures forall i :: 0 <= i < |s.slots| ==> (s.slots[i].conn == c <==> s.links[c].id == Some(s.slots[i].id))
    ensures forall i :: 0 <= i < |s.toAdd| ==> (s.toAdd[i].conn == c <==> s.links[c].tmp == Some(s.toAdd[i].id))
  {
    if HasConn(s.slots, c) {
      var i :| 0 <= i < |s.slots| && s.slots[i].conn == c;
      assert s.links[c] == Link(Some(s.slots[i].id), None, s.slots[i].id in s.toDelete);
    } else {
      var i :| 0 <= i < |s.toAdd| && s.toAdd[i].conn == c;
      assert s.links[c] == Link(None, Some(s.toAdd[i].id), false);
    }
  }

  lemma HeldAfterErase<F>(list: seq<Entry<F>>, id: nat)
    requires DistinctIds(list)
    ensures forall i :: 0 <= i < |list| && list[i].id != id ==> HasConn(Erase(list, id), list[i].conn)
  {
    EraseMembers(list, id);
    forall i | 0 <= i < |list| && list[i].id != id ensures HasConn(Erase(list, id), list[i].conn) {
      assert list[i] in Erase(list, id);
    }
  }

  /** Closing a connection after its entry has been listed for deletion. */
  lemma ListingKeepsInv<F>(s: Fields<F>, c: nat, s': Fields<F>)
    requires Inv(s) && s.guard && c < |s.links| && !s.links[c].closed && s.links[c].id.Some?
    requires s' == s.(toDelete := s.toDelete + [s.links[c].id.value],
        links := s.links[c := s.links[c].(closed := true)])
    ensures Inv(s')
  {
    OpenEntry(s, c);
  }

  /** Closing a connection after its waiting entry has been erased. */
  lemma WithdrawalKeepsInv<F>(s: Fields<F>, c: nat, s': Fields<F>)
    requires Inv(s) && s.guard && c < |s.links| && !s.links[c].closed && s.links[c].tmp.Some?
    requires s' == s.(toAdd := Erase(s.toAdd, s.links[c].tmp.value), links := s.links[c := s.links[c].(closed := true)])
    ensures Inv(s')
  {
    OpenEntry(s, c);
    EraseMembers(s.toAdd, s.links[c].tmp.value);
    HeldAfterErase(s.toAdd, s.links[c].tmp.value);
    forall d | 0 <= d < |s'.links| && !s'.links[d].closed ensures HasConn(s'.slots, d) || HasConn(s'.toAdd, d) {
      OpenEntry(s, d);
    }
  }

  lemma ErasureKeepsInv<F>(s: Fields<F>, c: nat, s': Fields<F>)
    requires Inv(s) && !s.guard && c < |s.links| && !s.links[c].closed && s.links[c].id.Some?
    requires s' == s.(slots := Erase(s.slots, s.links[c].id.value), links := s.links[c := s.links[c].(closed := true)])
    ensures Inv(s')
  {
    OpenEntry(s, c);
    EraseMembers(s.slots, s.links[c].id.value);
    HeldAfterErase(s.slots, s.links[c].id.value);
    forall d | 0 <= d < |s'.links| && !s'.links[d].closed ensures HasConn(s'.slots, d) {
      OpenEntry(s, d);
    }
  }

  lemma DisconnectKeepsInv<F>(s: Fields<F>, c: nat)
    requires Inv(s) && c < |s.links|
    ensures Inv(Disconnected(s, c))
  {
    if !s.links[c].closed {
      OpenEntry(s, c);
      if !s.guard {
        ErasureKeepsInv(s, c, Disconnected(s, c));
      } else if s.links[c].id.Some? {
        ListingKeepsInv(s, c, Disconnected(s, c));
      } else {
        WithdrawalKeepsInv(s, c, Disconnected(s, c));
      }
    }
  }

  /** No live entry belongs to a connection that is closed or not yet made. */
  lemma ClosedIsNotLive<F>(s: Fields<F>, c: nat)
    requires Inv(s) && (c < |s.links| ==> s.links[c].closed)
    ensures Drop(Live(s), c) == Live(s)
  {
    KeepMembers(s.slots, s.toDelete);
    DropNothing(Live(s), c);
  }

  lemma DisconnectDrops<F>(s: Fields<F>, c: nat)
    requires Inv(s) && c < |s.links|
    ensures Live(Disconnected(s, c)) == Drop(Live(s), c)
  {
    if s.links[c].closed {
      ClosedIsNotLive(s, c);
    } else {
      OpenEntry(s, c);
      KeepMembers(s.slots, s.toDelete);
      DropAppend(Subs(Keep(s.slots, s.toDelete)), Subs(s.toAdd), c);
      if s.links[c].tmp.Some? {
        DropNothing(Subs(Keep(s.slots, s.toDelete)), c);
        EraseDrops(s.toAdd, s.links[c].tmp.value, c);
      } else {
        DropNothing(Subs(s.toAdd), c);
        if s.guard {
          KeepDrops(s.slots, s.toDelete, s.links[c].id.value, c);
        } else {
          KeepAll(s.slots, []);
          EraseDrops(s.slots, s.links[c].id.value, c);
          KeepAll(Erase(s.slots, s.links[c].id.value), []);
        }
      }
    }
  }

  // ---- the outermost guard ----

  lemma {:induction false} SetIdsKeepsClosed<F>(links: seq<Link>, adds: seq<Entry<F>>, nextId: nat, c: nat)
    requires c < |links|
    ensures SetIds(links, adds, nextId)[c].closed == links[c].closed
  {
    if adds != [] { SetIdsKeepsClosed(links, adds[..|adds| - 1], nextId, c); }
  }

  /** No connection changes but those of the waiting entries. */
  lemma {:induction false} SetIdsLeaves<F>(links: seq<Link>, adds: seq<Entry<F>>, nextId: nat, c: nat)
    requires c < |links| && forall k :: 0 <= k < |adds| ==> adds[k].conn != c
    ensures SetIds(links, adds, nextId)[c] == links[c]
  {
    if adds != [] { SetIdsLeaves(links, adds[..|adds| - 1], nextId, c); }
  }

  lemma ConnsDiffer<F>(adds: seq<Entry<F>>, links: seq<Link>, j: nat, k: nat)
    requires AddsKnown(adds, links) && DistinctIds(adds) && j < |adds| && k < |adds| && j != k
    ensures adds[j].conn != adds[k].conn
  {
    assert links[adds[j].conn] == Link(None, Some(adds[j].id), false);
    assert links[adds[k].conn] == Link(None, Some(adds[k].id), false);
    assert adds[if j < k then j else k].id != adds[if j < k then k else j].id;
  }

  /** A waiting connection learns its new place. */
  lemma {:induction false} SetIdsMoves<F>(links: seq<Link>, adds: seq<Entry<F>>, nextId: nat, k: nat)
    requires AddsKnown(adds, links) && DistinctIds(adds) && k < |adds|
    ensures SetIds(links, adds, nextId)[adds[k].conn] == Link(Some(nextId + k), None, false)
  {
    var n := |adds| - 1;
    var c := adds[k].conn;
    SetIdsKeepsClosed(links, adds[..n], nextId, c);
    if k < n {
      SetIdsMoves(links, adds[..n], nextId, k);
      ConnsDiffer(adds, links, k, n);
    }
  }

  lemma SubsAppend<F>(a: seq<Entry<F>>, b: seq<Entry<F>>)
    ensures Subs(a + b) == Subs(a) + Subs(b)
  {
  }

  lemma SubsMoved<F>(adds: seq<Entry<F>>, nextId: nat)
    ensures Subs(Moved(adds, nextId)) == Subs(adds)
  {
  }

  lemma FlushKeepsLive<F>(s: Fields<F>, s': Fields<F>)
    requires Inv(s) && s' == Flushed(s)
    ensures Live(s') == Subs(s'.slots) == Live(s)
  {
    EraseAllKeeps(s.slots, s.toDelete);
    KeepAll(s'.slots, []);
    SubsAppend(Keep(s.slots, s.toDelete), Moved(s.toAdd, s.nextId));
    SubsMoved(s.toAdd, s.nextId);
    assert Live(s') == Subs(s'.slots) + Subs(s'.toAdd) == Subs(s'.slots);
  }

  /** The entries kept are still known: their connections are open and are not set. */
  lemma KeptIsKnown<F>(s: Fields<F>, kept: seq<Entry<F>>, links: seq<Link>)
    requires Inv(s) && kept == Keep(s.slots, s.toDelete) && links == SetIds(s.links, s.toAdd, s.nextId)
    ensures ListOk(kept, s.nextId) && SlotsKnown(kept, [], links)
  {
    KeepMembers(s.slots, s.toDelete);
    forall i | 0 <= i < |kept|
      ensures kept[i].id < s.nextId && kept[i].conn < |links|
      ensures links[kept[i].conn] == Link(Some(kept[i].id), None, false)
    {
      var j :| 0 <= j < |s.slots| && s.slots[j] == kept[i];
      assert s.links[s.slots[j].conn] == Link(Some(kept[i].id), None, false);
      SetIdsLeaves(s.links, s.toAdd, s.nextId, kept[i].conn);
    }
  }

  lemma MovedIsKnown<F>(s: Fields<F>, moved: seq<Entry<F>>, links: seq<Link>)
    requires Inv(s) && moved == Moved(s.toAdd, s.nextId) && links == SetIds(s.links, s.toAdd, s.nextId)
    ensures ListOk(moved, s.nextId + |s.toAdd|) && SlotsKnown(moved, [], links)
  {
    forall k | 0 <= k < |moved| ensures links[s.toAdd[k].conn] == Link(Some(s.nextId + k), None, false) {
      SetIdsMoves(s.links, s.toAdd, s.nextId, k);
    }
  }

  lemma HasConnAppend<F>(a: seq<Entry<F>>, b: seq<Entry<F>>, c: nat)
    requires HasConn(a, c) || HasConn(b, c)
    ensures HasConn(a + b, c)
  {
    if HasConn(a, c) {
      var i :| 0 <= i < |a| && a[i].conn == c;
      assert (a + b)[i].conn == c;
    } else {
      var i :| 0 <= i < |b| && b[i].conn == c;
      assert (a + b)[|a| + i].conn == c;
    }
  }

  lemma FlushHoldsOpen<F>(s: Fields<F>, kept: seq<Entry<F>>, moved: seq<Entry<F>>, links: seq<Link>)
    requires SlotsKnown(s.slots, s.toDelete, s.links) && OpenHeld(s.slots, s.toAdd, s.links)
    requires kept == Keep(s.slots, s.toDelete) && moved == Moved(s.toAdd, s.nextId)
    requires |links| == |s.links| && forall c :: 0 <= c < |links| ==> links[c].closed == s.links[c].closed
    ensures OpenHeld(kept + moved, [], links)
  {
    KeepMembers(s.slots, s.toDelete);
    forall c | 0 <= c < |links| && !links[c].closed ensures HasConn(kept + moved, c) {
      if HasConn(s.toAdd, c) {
        var k :| 0 <= k < |s.toAdd| && s.toAdd[k].conn == c;
        assert moved[k].conn == c;
      } else {
        var i :| 0 <= i < |s.slots| && s.slots[i].conn == c;
        var j :| 0 <= j < |kept| && kept[j] == s.slots[i];
        assert kept[j].conn == c;
      }
      HasConnAppend(kept, moved, c);
    }
  }

  lemma FlushKeepsInv<F>(s: Fields<F>)
    requires Inv(s)
    ensures Inv(Flushed(s))
  {
    var kept, moved, links := Keep(s.slots, s.toDelete), Moved(s.toAdd, s.nextId), SetIds(s.links, s.toAdd, s.nextId);
    EraseAllKeeps(s.slots, s.toDelete);
    KeptIsKnown(s, kept, links);
    MovedIsKnown(s, moved, links);
    forall c | 0 <= c < |links| ensures links[c].closed == s.links[c].closed {
      SetIdsKeepsClosed(s.links, s.toAdd, s.nextId, c);
    }
    FlushHoldsOpen(s, kept, moved, links);
  }
}
