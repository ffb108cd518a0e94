/** Unsigned machine words as natural numbers, with the bitwise operators given by their binary digits. */
module Words {
  const WIDTH: nat := 64
  const MODULUS: nat := 0x1_0000_0000_0000_0000

  type Word = w: nat | w < MODULUS

  /** The numbers below `n`, as the slots of a segment of width `n`. */
  function Upto(n: nat): (s: set<nat>)
    ensures |s| == n && forall k: nat :: k in s <==> k < n
  {
    if n == 0 then {} else Upto(n - 1) + {n - 1}
  }

  function Pow2(n: nat): (p: nat)
    ensures p >= 1
  {
    if n == 0 then 1 else 2 * Pow2(n - 1)
  }

  ghost predicate IsPow2(n: nat) {
    exists k: nat :: n == Pow2(k)
  }

  /** Digit `k` of `w` is one. */
  predicate Bit(w: nat, k: nat) {
    if k == 0 then w % 2 == 1 else Bit(w / 2, k - 1)
  }

  /** The operator `a & b`. */
  function And(a: nat, b: nat): nat {
    if a == 0 || b == 0 then 0 else 2 * And(a / 2, b / 2) + (if a % 2 == 1 && b % 2 == 1 then 1 else 0)
  }

  /** The operator `a & ~b`. */
  function AndNot(a: nat, b: nat): (r: nat)
    ensures r <= a
  {
    if a == 0 then 0 else 2 * AndNot(a / 2, b / 2) + (if a % 2 == 1 && b % 2 == 0 then 1 else 0)
  }

  /** The operator `a | b`. */
  function Or(a: nat, b: nat): nat {
    if a == 0 then b else 2 * Or(a / 2, b / 2) + (if a % 2 == 1 || b % 2 == 1 then 1 else 0)
  }

  lemma {:induction false} AndBound(x: nat, m: nat)
    ensures And(x, m) <= m
  {
    if x != 0 && m != 0 { AndBound(x / 2, m / 2); }
  }

  lemma {:induction false} BitAnd(a: nat, b: nat, k: nat)
    ensures Bit(And(a, b), k) <==> Bit(a, k) && Bit(b, k)
  {
    if a == 0 || b == 0 {
      BitZero(k);
    } else if k > 0 {
      assert And(a, b) / 2 == And(a / 2, b / 2);
      BitAnd(a / 2, b / 2, k - 1);
    }
  }

  lemma {:induction false} BitAndNot(a: nat, b: nat, k: nat)
    ensures Bit(AndNot(a, b), k) <==> Bit(a, k) && !Bit(b, k)
  {
    if a == 0 {
      BitZero(k);
    } else if k > 0 {
      assert AndNot(a, b) / 2 == AndNot(a / 2, b / 2);
      BitAndNot(a / 2, b / 2, k - 1);
    }
  }

  lemma {:induction false} BitOr(a: nat, b: nat, k: nat)
    ensures Bit(Or(a, b), k) <==> Bit(a, k) || Bit(b, k)
  {
    if a == 0 {
      BitZero(k);
    } else if k > 0 {
      assert Or(a, b) / 2 == Or(a / 2, b / 2);
      BitOr(a / 2, b / 2, k - 1);
    }
  }

  lemma {:induction false} BitZero(k: nat)
    ensures !Bit(0, k)
  {
    if k > 0 { BitZero(k - 1); }
  }

  /** A set digit makes the word at least as large as that digit's weight. */
  lemma {:induction false} BitWeight(w: nat, k: nat)
    requires Bit(w, k)
    ensures Pow2(k) <= w
  {
    if k > 0 { BitWeight(w / 2, k - 1); }
  }

  lemma {:induction false} Pow2Monotone(i: nat, j: nat)
    requires i <= j
    ensures Pow2(i) <= Pow2(j)
    decreases j
  {
    if i < j { Pow2Monotone(i, j - 1); }
  }

  lemma WordDigits(w: Word, k: nat)
    requires Bit(w, k)
    ensures k < WIDTH
  {
    BitWeight(w, k);
    if k >= WIDTH {
      Pow2Monotone(WIDTH, k);
      ModulusIsPow2();
    }
  }

  lemma ModulusIsPow2()
    ensures Pow2(WIDTH) == MODULUS
  {
    assert Pow2(8) == 0x100 by { assert Pow2(4) == 16; Pow2Add(4, 4); }
    hide Pow2;
    Pow2Add(8, 8);
    Pow2Add(16, 16);
    Pow2Add(32, 32);
  }

  lemma {:induction false} Pow2Add(i: nat, j: nat)
    ensures Pow2(i + j) == Pow2(i) * Pow2(j)
  {
    if i > 0 {
      Pow2Add(i - 1, j);
      assert Pow2(i + j) == 2 * (Pow2(i - 1) * Pow2(j));
    }
  }

  lemma {:induction false} BitPow2(i: nat, k: nat)
    ensures Bit(Pow2(i), k) <==> k == i
  {
    if i == 0 {
      if k > 0 { BitZero(k - 1); }
    } else if k > 0 {
      BitPow2(i - 1, k - 1);
    }
  }

  /** Two words with the same digits are equal. */
  lemma {:induction false} SameDigits(a: nat, b: nat)
    requires forall k: nat :: Bit(a, k) == Bit(b, k)
    ensures a == b
    decreases a + b
  {
    assert Bit(a, 0) == Bit(b, 0);
    if a > 0 || b > 0 {
      forall k: nat ensures Bit(a / 2, k) == Bit(b / 2, k) {
        assert Bit(a, k + 1) == Bit(b, k + 1);
      }
      SameDigits(a / 2, b / 2);
    }
  }

  lemma MultipleSign(d: int, m: nat)
    ensures d >= 1 ==> d * m >= m
    ensures d <= -1 ==> d * m <= -(m as int)
    ensures d == 0 ==> d * m == 0
  {
  }

  lemma DivisionUnique(x: nat, q: nat, m: nat, r: nat)
    requires m > 0 && x == q * m + r && r < m
    ensures x / m == q && x % m == r
  {
    var d: int := x / m - q;
    assert d * m == r - x % m;
    MultipleSign(d, m);
  }

  lemma HalfRemainder(x: nat, m: nat)
    requires m > 0
    ensures x % (2 * m) == 2 * (x / 2 % m) + x % 2
  {
    var q, r := x / 2 / m, x / 2 % m;
    assert x / 2 == q * m + r;
    assert q * (2 * m) == 2 * (q * m);
    DivisionUnique(x, q, 2 * m, 2 * r + x % 2);
  }

  lemma AndStep(x: nat, y: nat)
    requires y % 2 == 1
    ensures And(x, y) == 2 * And(x / 2, y / 2) + x % 2
  {
  }

  /** Masking with a power of two less one is the remainder. */
  lemma {:induction false} MaskIsRemainder(x: nat, k: nat)
    ensures And(x, Pow2(k) - 1) == x % Pow2(k)
  {
    if k == 0 {
      assert And(x, 0) == 0;
    } else {
      var m := Pow2(k - 1);
      MaskIsRemainder(x / 2, k - 1);
      HalfRemainder(x, m);
      AndStep(x, 2 * m - 1);
    }
  }

  /** A mask that is not a power of two less one has a hole below its top digit. */
  lemma {:induction false} MaskHole(m: nat) returns (b: nat)
    requires !IsPow2(m + 1)
    ensures Pow2(b) <= m && And(Pow2(b), m) == 0
  {
    assert Pow2(0) == 1;
    if m % 2 == 0 {
      b := 0;
      assert And(1, m) == 2 * And(0, m / 2);
    } else {
      forall k: nat ensures m / 2 + 1 != Pow2(k) {
        assert m + 1 != Pow2(k + 1);
      }
      var b' := MaskHole(m / 2);
      b := b' + 1;
      assert Pow2(b) / 2 == Pow2(b');
    }
  }

  /** The expression `x & (n - 1)`, by which the queue picks a cell and the tree pool a child. */
  function Masked(x: nat, n: nat): nat
    requires n > 0
  {
    And(x, n - 1)
  }

  /** Every window of `n` consecutive numbers is mapped one-to-one by `& (n - 1)`. */
  ghost predicate MaskSpreads(n: nat)
    requires n > 0
  {
    forall x: nat, y: nat :: x < y < x + n ==> Masked(x, n) != Masked(y, n)
  }

  lemma RemainderSpreads(n: nat, x: nat, y: nat)
    requires n > 0 && x < y < x + n
    ensures x % n != y % n
  {
    var d: int := y / n - x / n;
    assert y - x == d * n + (y % n - x % n);
    MultipleSign(d, n);
  }

  /**
   * The masks `& (S - 1)` and `& (N - 1)` reach a full window exactly when the size is a power of two.
   * Being a multiple of 8 is not enough: 24 is one, and its mask sends 0 and 8 to the same cell.
   */
  lemma MaskSpreadsIffPow2(n: nat)
    requires n > 0
    ensures MaskSpreads(n) <==> IsPow2(n)
  {
    if IsPow2(n) {
      var k: nat :| n == Pow2(k);
      forall x: nat, y: nat | x < y < x + n ensures Masked(x, n) != Masked(y, n) {
        MaskIsRemainder(x, k);
        MaskIsRemainder(y, k);
        RemainderSpreads(n, x, y);
      }
    } else {
      var b := MaskHole(n - 1);
      assert Masked(0, n) == Masked(Pow2(b), n);
    }
  }

  lemma MultipleOfEightIsNotEnough()
    ensures 24 % 8 == 0 && Masked(0, 24) == Masked(8, 24) && !MaskSpreads(24)
  {
    assert And(1, 2) == 0;
    AndStep(2, 5);
    AndStep(4, 11);
    AndStep(8, 23);
  }

  lemma {:induction false} SubsetSize(s: set<nat>, t: set<nat>)
    requires s <= t
    ensures |s| <= |t|
  {
    if s != {} {
      var x :| x in s;
      SubsetSize(s - {x}, t - {x});
    }
  }
}
