/** The ring queue used by one thread: 64-bit counters that wrap around, and a bounded FIFO for ever. */
module FixSizeQueues {
  import opened Words
  import opened QueueLanes

  // ---- arithmetic across the wrap ----

  /** `size_` on two 64-bit counters. */
  function CounterSize(h: nat, t: nat, S: nat): nat
    requires S > 0
  {
    if t >= h then t - h else (t + S - Cell(h, S)) % MODULUS
  }

  lemma ModulusMultiple(S: nat) returns (q: nat)
    requires IsPow2(S) && S < MODULUS
    ensures MODULUS == q * S && q >= 2
  {
    ModulusIsPow2();
    var k: nat :| S == Pow2(k);
    if k >= WIDTH { Pow2Monotone(WIDTH, k); }
    q := Pow2(WIDTH - k);
    Pow2Add(WIDTH - k, k);
    AtLeastTwo(WIDTH - k);
  }

  lemma AtLeastTwo(n: nat)
    requires n > 0
    ensures Pow2(n) >= 2
  {
  }

  lemma Regroup(n: nat, q: nat, p: nat, S: nat)
    ensures n * (q * S) + p * S == (n * q + p) * S
  {
    assert n * (q * S) == (n * q) * S;
  }

  lemma QuotientAndRest(x: nat, m: nat) returns (n: nat, r: nat)
    requires m > 0
    ensures x == n * m + r && r == x % m
  {
    n, r := x / m, x % m;
  }

  /** The remainder by a divisor of the modulus does not notice a wrap. */
  lemma RemainderAcrossWrap(i: nat, m: nat, q: nat, S: nat)
    requires S > 0 && m == q * S && m > 0
    ensures i % m % S == i % S
  {
    var n, r := QuotientAndRest(i, m);
    var p, c := QuotientAndRest(r, S);
    Regroup(n, q, p, S);
    DivisionUnique(i, n * q + p, S, c);
  }

  lemma CellIsRemainder(i: nat, S: nat)
    requires S > 0 && IsPow2(S)
    ensures Cell(i, S) == i % S
  {
    var k: nat :| S == Pow2(k);
    MaskIsRemainder(i, k);
  }

  /** A counter's cell does not notice the wrap. */
  lemma CellAcrossWrap(i: nat, S: nat)
    requires S > 0 && IsPow2(S) && S < MODULUS
    ensures Cell(i % MODULUS, S) == Cell(i, S)
  {
    var q := ModulusMultiple(S);
    CellIsRemainder(i, S);
    CellIsRemainder(i % MODULUS, S);
    RemainderAcrossWrap(i, MODULUS, q, S);
  }

  /** S consecutive counter values have different cells, also when the counter wraps between them. */
  lemma CellsDifferAcrossWrap(i: nat, j: nat, S: nat)
    requires S > 0 && IsPow2(S) && S < MODULUS && i < j < i + S
    ensures Cell(i % MODULUS, S) != Cell(j % MODULUS, S)
  {
    CellAcrossWrap(i, S);
    CellAcrossWrap(j, S);
    MaskSpreadsIffPow2(S);
    CellsDiffer(S, i, j);
  }

  /** On wrapped counters at most S apart, `size_` is the true distance. */
  lemma SizeAcrossWrap(h: nat, t: nat, S: nat)
    requires S > 0 && IsPow2(S) && S < MODULUS && h <= t <= h + S
    ensures CounterSize(h % MODULUS, t % MODULUS, S) == t - h
  {
    var q := ModulusMultiple(S);
    assert MODULUS == (q - 1) * S + S;
    assert S <= (q - 1) * S;
    var hr, n := h % MODULUS, h / MODULUS;
    var tr: int := hr + (t - h);
    if tr < MODULUS {
      DivisionUnique(t, n, MODULUS, tr);
    } else {
      DivisionUnique(t, n + 1, MODULUS, tr - MODULUS);
      assert hr == (q - 1) * S + (hr - (MODULUS - S));
      DivisionUnique(hr, q - 1, S, hr - (MODULUS - S));
      CellIsRemainder(hr, S);
    }
  }

  // ---- the queue ----

  class FixSizeQueue<T(0)> {
    const S: nat
    const data: array<T>
    const checkRead: array<bool>
    const checkWrite: array<bool>
    var headRead: Word
    var headWrite: Word
    var tailRead: Word
    var tailWrite: Word
    ghost var first: nat           // how many values were ever popped
    ghost var contents: seq<T>     // the values in the queue, oldest first

    ghost predicate Valid()
      reads this, data, checkRead, checkWrite
    {
      && S > 0 && IsPow2(S) && S < MODULUS
      && data.Length == checkRead.Length == checkWrite.Length == S
      && checkRead != checkWrite && (data as object) != checkRead && (data as object) != checkWrite
      && |contents| <= S
      && headRead == headWrite == first % MODULUS
      && tailRead == tailWrite == (first + |contents|) % MODULUS
      && (forall c :: 0 <= c < S ==> !checkRead[c] && !checkWrite[c])
      && (forall j :: 0 <= j < |contents| ==> data[Cell(first + j, S)] == contents[j])
    }

    /** Any size is accepted; a FIFO needs a power of two (QueueSizes.FifoIffPow2), and so do the methods below. */
    constructor (size: nat)
      requires size < MODULUS
      ensures Valid() <==> IsPow2(size)
      ensures contents == [] && S == size && headRead == headWrite == tailRead == tailWrite == 0
      ensures checkRead.Length == checkWrite.Length == size
      ensures forall c :: 0 <= c < size ==> !checkRead[c] && !checkWrite[c]
      ensures fresh(data) && fresh(checkRead) && fresh(checkWrite)
    {
      S := size;
      data := new T[size];
      checkRead := new bool[size](_ => false);
      checkWrite := new bool[size](_ => false);
      headRead, headWrite, tailRead, tailWrite := 0, 0, 0, 0;
      first, contents := 0, [];
    }

    method Empty() returns (b: bool)
      requires Valid()
      ensures b <==> contents == []
    {
      SizeAcrossWrap(first, first + |contents|, S);
      b := headRead == tailRead;
    }

    method Size() returns (n: nat)
      requires Valid()
      ensures n == |contents|
    {
      SizeAcrossWrap(first, first + |contents|, S);
      n := CounterSize(headRead, tailRead, S);
    }

    method Full() returns (b: bool)
      requires Valid()
      ensures b <==> |contents| == S
    {
      SizeAcrossWrap(first, first + |contents|, S);
      b := CounterSize(headRead, tailRead, S) == S;
    }

    /** data_is_ready_: lowers the flag of a cell and tells whether it was raised. */
    method DataIsReady(check: array<bool>, c: nat) returns (ready: bool)
      requires c < check.Length
      modifies check
      ensures ready == old(check[c]) && !check[c]
      ensures forall d :: 0 <= d < check.Length && d != c ==> check[d] == old(check[d])
    {
      ready := check[c];
      check[c] := false;
    }

    /** The publish loop of push, entered with the flag of ticket `last` raised. */
    method PublishTail(idx0: Word, ghost last: nat)
      requires 0 < S == checkWrite.Length && IsPow2(S) && S < MODULUS
      requires idx0 == tailRead == last % MODULUS
      requires forall d :: 0 <= d < S ==> (checkWrite[d] <==> d == Cell(last, S))
      modifies this`tailRead, checkWrite
      ensures tailRead == (last + 1) % MODULUS
      ensures forall d :: 0 <= d < S ==> !checkWrite[d]
    {
      var idx := idx0;
      ghost var at := last;
      while true
        invariant last <= at <= last + 1 && idx == tailRead == at % MODULUS
        invariant forall d :: 0 <= d < S ==> (checkWrite[d] <==> at == last && d == Cell(last, S))
        decreases last + 1 - at
      {
        if idx != tailRead { break; }
        CellAcrossWrap(at, S);
        var ready := DataIsReady(checkWrite, Cell(idx, S));
        if !ready { break; }
        NextCounter(at);
        tailRead := (tailRead + 1) % MODULUS;
        idx := (idx + 1) % MODULUS;
        at := at + 1;
      }
    }

    /** The publish loop of pop, entered with the flag of ticket `last` raised. */
    method PublishHead(idx0: Word, ghost last: nat)
      requires 0 < S == checkRead.Length && IsPow2(S) && S < MODULUS
      requires idx0 == headWrite == last % MODULUS
      requires forall d :: 0 <= d < S ==> (checkRead[d] <==> d == Cell(last, S))
      modifies this`headWrite, checkRead
      ensures headWrite == (last + 1) % MODULUS
      ensures forall d :: 0 <= d < S ==> !checkRead[d]
    {
      var idx := idx0;
      ghost var at := last;
      while true
        invariant last <= at <= last + 1 && idx == headWrite == at % MODULUS
        invariant forall d :: 0 <= d < S ==> (checkRead[d] <==> at == last && d == Cell(last, S))
        decreases last + 1 - at
      {
        if idx != headWrite { break; }
        CellAcrossWrap(at, S);
        var ready := DataIsReady(checkRead, Cell(idx, S));
        if !ready { break; }
        NextCounter(at);
        headWrite := (headWrite + 1) % MODULUS;
        idx := (idx + 1) % MODULUS;
        at := at + 1;
      }
    }

    /** Adds a value at the back unless the queue is full. */
    method Push(value: T) returns (ok: bool)
      requires Valid()
      modifies this, data, checkWrite
      ensures Valid()
      ensures ok <==> |old(contents)| < S
      ensures contents == if ok then old(contents) + [value] else old(contents)
      ensures first == old(first)
    {
      var idx := tailWrite;
      SizeAcrossWrap(first, first + |contents|, S);
      if CounterSize(headWrite, idx, S) == S {
        return false;
      }
      NextCounter(first + |contents|);
      tailWrite := (idx + 1) % MODULUS;
      Write(idx, value);
      PublishTail(idx, first + |contents|);
      contents := contents + [value];
      return true;
    }

    /** push fills the cell of its ticket and raises the flag. */
    method Write(idx: Word, value: T)
      requires S > 0 && IsPow2(S) && S < MODULUS && data.Length == checkWrite.Length == S
      requires (data as object) != checkWrite && |contents| < S && idx == (first + |contents|) % MODULUS
      requires forall c :: 0 <= c < S ==> !checkWrite[c]
      requires forall j :: 0 <= j < |contents| ==> data[Cell(first + j, S)] == contents[j]
      modifies data, checkWrite
      ensures forall d :: 0 <= d < S ==> (checkWrite[d] <==> d == Cell(first + |contents|, S))
      ensures forall j :: 0 <= j <= |contents| ==> data[Cell(first + j, S)] == (contents + [value])[j]
    {
      CellAcrossWrap(first + |contents|, S);
      OtherCells(first, |contents|, S);
      var c := Cell(idx, S);
      data[c] := value;
      checkWrite[c] := true;
    }

    /** Takes the oldest value unless the queue is empty. */
    method Pop(initial: T) returns (ok: bool, value: T)
      requires Valid()
      modifies this, checkRead
      ensures Valid()
      ensures ok <==> old(contents) != []
      ensures ok ==> value == old(contents)[0] && contents == old(contents)[1..] && first == old(first) + 1
      ensures !ok ==> value == initial && contents == old(contents) && first == old(first)
    {
      var idx := headRead;
      SizeAcrossWrap(first, first + |contents|, S);
      if idx == tailRead {
        return false, initial;
      }
      CellAcrossWrap(first, S);
      NextCounter(first);
      headRead := (idx + 1) % MODULUS;
      var c := Cell(idx, S);
      value := data[c];
      assert value == contents[0] by { assert data[Cell(first + 0, S)] == contents[0]; }
      checkRead[c] := true;
      PublishHead(idx, first);
      forall j | 0 <= j < |contents| - 1 ensures data[Cell(first + 1 + j, S)] == contents[1..][j] {
        assert data[Cell(first + (j + 1), S)] == contents[j + 1];
      }
      first := first + 1;
      contents := contents[1..];
      ok := true;
    }
  }

  /** The cell behind the last of `n` values is none of theirs. */
  lemma OtherCells(first: nat, n: nat, S: nat)
    requires S > 0 && IsPow2(S) && n < S
    ensures forall i: nat :: first <= i < first + n ==> Cell(i, S) != Cell(first + n, S)
  {
    MaskSpreadsIffPow2(S);
    forall i: nat | first <= i < first + n ensures Cell(i, S) != Cell(first + n, S) {
      CellsDiffer(S, i, first + n);
    }
  }

  lemma NextCounter(i: nat)
    ensures (i % MODULUS + 1) % MODULUS == (i + 1) % MODULUS
  {
  }
}
