/** The nibble-table loops that read a segment's bitmap. */
module Bits {
  import opened Words

  /** Position of the lowest set digit. */
  function LowIndex(w: nat): nat
    requires w > 0
  {
    if w % 2 == 1 then 0 else 1 + LowIndex(w / 2)
  }

  lemma {:induction false} LowIndexIsLeast(w: nat)
    requires w > 0
    ensures Bit(w, LowIndex(w)) && forall j: nat :: j < LowIndex(w) ==> !Bit(w, j)
  {
    if w % 2 == 0 {
      LowIndexIsLeast(w / 2);
      assert forall j: nat :: 0 < j < LowIndex(w) ==> Bit(w, j) == Bit(w / 2, j - 1);
    }
  }

  /** Population count. */
  function Pop(w: nat): nat {
    if w == 0 then 0 else w % 2 + Pop(w / 2)
  }

  ghost function OnesBelow(w: nat, n: nat): set<nat> {
    set k: nat | k < n && Bit(w, k)
  }

  /** The positions of the set digits of a word: the free slots its segment still has. */
  ghost function Ones(w: Word): set<nat> {
    OnesBelow(w, WIDTH)
  }

  ghost function Shift(s: set<nat>): set<nat> {
    set k | k in s :: k + 1
  }

  lemma {:induction false} ShiftSize(s: set<nat>)
    ensures |Shift(s)| == |s|
  {
    if s != {} {
      var x :| x in s;
      ShiftSize(s - {x});
      assert s == s - {x} + {x};
      forall k ensures k in Shift(s) <==> k in Shift(s - {x}) + {x + 1} {}
      assert Shift(s) == Shift(s - {x}) + {x + 1};
    }
  }

  lemma OnesBelowStep(w: nat, n: nat)
    requires n > 0
    ensures OnesBelow(w, n) == (if w % 2 == 1 then {0} else {}) + Shift(OnesBelow(w / 2, n - 1))
    ensures 0 !in Shift(OnesBelow(w / 2, n - 1))
  {
    forall k: nat | k > 0 ensures k in Shift(OnesBelow(w / 2, n - 1)) <==> k in OnesBelow(w, n) {
      assert k in Shift(OnesBelow(w / 2, n - 1)) <==> k - 1 in OnesBelow(w / 2, n - 1);
    }
  }

  lemma {:induction false} PopCountsOnes(w: nat, n: nat)
    requires w < Pow2(n)
    ensures |OnesBelow(w, n)| == Pop(w)
  {
    if n == 0 {
      assert OnesBelow(w, n) == {};
    } else {
      PopCountsOnes(w / 2, n - 1);
      ShiftSize(OnesBelow(w / 2, n - 1));
      OnesBelowStep(w, n);
    }
  }

  /** The population count of a word is the number of its free slots. */
  lemma PopIsSize(w: Word)
    ensures Pop(w) == |Ones(w)|
  {
    ModulusIsPow2();
    PopCountsOnes(w, WIDTH);
  }

  lemma {:induction false} OnesOfZero()
    ensures Ones(0) == {}
  {
    forall k: nat ensures !Bit(0, k) { BitZero(k); }
  }

  lemma OnesOfPow2(k: nat)
    requires k < WIDTH
    ensures Pow2(k) < MODULUS && Ones(Pow2(k)) == {k}
  {
    Pow2Monotone(k, WIDTH - 1);
    ModulusIsPow2();
    forall j: nat ensures Bit(Pow2(k), j) <==> j == k { BitPow2(k, j); }
  }

  lemma AllOnes()
    ensures Ones(MODULUS - 1) == Upto(WIDTH)
  {
    ModulusIsPow2();
    var w: Word := MODULUS - 1;
    forall k: nat ensures k < WIDTH ==> Bit(w, k) {
      if k < WIDTH { AllOnesBit(WIDTH, k); }
    }
  }

  lemma {:induction false} AllOnesBit(n: nat, k: nat)
    requires k < n
    ensures Bit(Pow2(n) - 1, k)
  {
    if k > 0 {
      assert (Pow2(n) - 1) / 2 == Pow2(n - 1) - 1;
      AllOnesBit(n - 1, k - 1);
    }
  }

  lemma OnesAndNot(a: Word, b: Word)
    ensures Ones(AndNot(a, b)) == Ones(a) - Ones(b)
  {
    forall k: nat ensures Bit(AndNot(a, b), k) <==> Bit(a, k) && !Bit(b, k) { BitAndNot(a, b, k); }
  }

  lemma {:induction false} OrBound(a: nat, b: nat, n: nat)
    requires a < Pow2(n) && b < Pow2(n)
    ensures Or(a, b) < Pow2(n)
  {
    if n > 0 && a > 0 { OrBound(a / 2, b / 2, n - 1); }
  }

  lemma OnesOr(a: Word, b: Word)
    ensures Or(a, b) < MODULUS && Ones(Or(a, b)) == Ones(a) + Ones(b)
  {
    ModulusIsPow2();
    OrBound(a, b, WIDTH);
    forall k: nat ensures Bit(Or(a, b), k) <==> Bit(a, k) || Bit(b, k) { BitOr(a, b, k); }
  }

  /** Words and sets of slots carry the same information. */
  lemma OnesInjective(a: Word, b: Word)
    ensures Ones(a) == Ones(b) <==> a == b
  {
    if Ones(a) == Ones(b) {
      forall k: nat ensures Bit(a, k) == Bit(b, k) {
        if Bit(a, k) { WordDigits(a, k); assert k in Ones(a); }
        if Bit(b, k) { WordDigits(b, k); assert k in Ones(b); }
      }
      SameDigits(a, b);
    }
  }

  lemma FourDigits(m: nat)
    ensures Pop(m) == m % 2 + m / 2 % 2 + m / 4 % 2 + m / 8 % 2 + Pop(m / 16)
    ensures m > 0 ==>
              LowIndex(m) == if m % 2 == 1 then 0 else if m / 2 % 2 == 1 then 1 else if m / 4 % 2 == 1 then 2
                             else if m / 8 % 2 == 1 then 3 else 4 + LowIndex(m / 16)
  {
    assert m / 2 / 2 == m / 4 && m / 4 / 2 == m / 8 && m / 8 / 2 == m / 16;
    PopStep(m); PopStep(m / 2); PopStep(m / 4); PopStep(m / 8);
  }

  lemma EvenOffset(k: nat, x: nat)
    ensures (2 * k + x) % 2 == x % 2
  {
  }

  lemma NibbleDigits(m: nat)
    ensures var n := m % 16;
            && n % 2 == m % 2 && n / 2 % 2 == m / 2 % 2 && n / 4 % 2 == m / 4 % 2 && n / 8 % 2 == m / 8 % 2
                && n / 16 == 0
  {
    var n, q := m % 16, m / 16;
    assert m == 2 * (8 * q) + n;
    assert m / 2 == 2 * (4 * q) + n / 2;
    assert m / 4 == 2 * (2 * q) + n / 4;
    assert m / 8 == 2 * q + n / 8;
    EvenOffset(8 * q, n); EvenOffset(4 * q, n / 2); EvenOffset(2 * q, n / 4); EvenOffset(q, n / 8);
  }

  lemma SomeDigit(n: nat)
    requires 0 < n < 16
    ensures n % 2 == 1 || n / 2 % 2 == 1 || n / 4 % 2 == 1 || n / 8 % 2 == 1
  {
  }

  lemma NibbleStep(m: nat)
    requires m > 0
    ensures m % 16 == 0 ==> m / 16 > 0 && LowIndex(m) == 4 + LowIndex(m / 16)
    ensures m % 16 != 0 ==> LowIndex(m) < 4 && LowIndex(m) == LowIndex(m % 16)
    ensures Pop(m) == Pop(m % 16) + Pop(m / 16)
  {
    NibbleDigits(m);
    FourDigits(m);
    FourDigits(m % 16);
    if m % 16 != 0 { SomeDigit(m % 16); }
  }

  lemma PopStep(m: nat)
    ensures Pop(m) == m % 2 + Pop(m / 2)
  {
  }

  /** One more than the position of the lowest set digit, or 0 for the zero word. */
  method FindFirstBit(num: Word) returns (ret: nat)
    ensures num == 0 ==> ret == 0
    ensures num > 0 ==> ret == LowIndex(num) + 1 && 1 <= ret <= WIDTH
  {
    var nibblebits := [0, 1, 2, 1, 3, 1, 2, 1, 4, 1, 2, 1, 3, 1, 2, 1];
    ret := 0;
    var m: nat := num;
    while m != 0
      invariant num == 0 ==> ret == 0
      invariant m == 0 <==> num == 0
      invariant num > 0 ==> m > 0 && LowIndex(num) == LowIndex(m) + ret
      decreases m
    {
      var t := m % 16;
      NibbleStep(m);
      if t != 0 {
        FirstTable(t);
        ret := ret + nibblebits[t];
        break;
      }
      m := m / 16;
      ret := ret + 4;
    }
    if num > 0 {
      LowIndexIsLeast(num);
      WordDigits(num, LowIndex(num));
    }
  }

  /** The lowest set digit as a word of its own, or 0 for the zero word. */
  method GetBit(mask: Word) returns (r: Word)
    ensures mask == 0 ==> r == 0
    ensures mask > 0 ==> r == Pow2(LowIndex(mask)) && LowIndex(mask) < WIDTH
  {
    var hitbits := [0, 1, 2, 1, 4, 1, 2, 1, 8, 1, 2, 1, 4, 1, 2, 1];
    var i := 0;
    var m: nat := mask;
    while m != 0
      invariant mask > 0 ==> m > 0 && LowIndex(mask) == LowIndex(m) + 4 * i
      invariant mask == 0 ==> m == 0
      decreases m
    {
      var t := m % 16;
      NibbleStep(m);
      if t != 0 {
        HitTable(t);
        HitIsLowest(mask, LowIndex(m), 4 * i);
        return hitbits[t] * Pow2(4 * i) % MODULUS;
      }
      m := m / 16;
      i := i + 1;
    }
    return 0;
  }

  /** The lowest digit of a shifted word, shifted back. */
  lemma HitIsLowest(mask: Word, low: nat, shift: nat)
    requires mask > 0 && LowIndex(mask) == low + shift
    ensures Pow2(low) * Pow2(shift) == Pow2(LowIndex(mask)) < MODULUS && LowIndex(mask) < WIDTH
  {
    LowIndexIsLeast(mask);
    WordDigits(mask, LowIndex(mask));
    OnesOfPow2(LowIndex(mask));
    Pow2Add(low, shift);
  }

  lemma HitTable(t: nat)
    requires 0 < t < 16
    ensures [0, 1, 2, 1, 4, 1, 2, 1, 8, 1, 2, 1, 4, 1, 2, 1][t] == Pow2(LowIndex(t))
  {
    assert Pow2(3) == 8 && Pow2(2) == 4 && Pow2(1) == 2 && Pow2(0) == 1;
    assert LowIndex(8) == 3;
  }

  lemma SmallLowIndex(t: nat)
    requires 0 < t < 16
    ensures LowIndex(t) == if t % 2 == 1 then 0 else if t % 4 == 2 then 1 else if t % 8 == 4 then 2 else 3
  {
    FourDigits(t);
  }

  lemma FirstTable(t: nat)
    requires 0 < t < 16
    ensures [0, 1, 2, 1, 3, 1, 2, 1, 4, 1, 2, 1, 3, 1, 2, 1][t] == LowIndex(t) + 1
  {
    SmallLowIndex(t);
  }

  lemma CountTable(t: nat)
    requires t < 16
    ensures [0, 1, 1, 2, 1, 2, 2, 3, 1, 2, 2, 3, 2, 3, 3, 4][t] == Pop(t)
  {
    FourDigits(t);
  }

  /** The number of set digits. */
  method CountBit(mask: Word) returns (ret: nat)
    ensures ret == |Ones(mask)| <= WIDTH
  {
    var nibblebits := [0, 1, 1, 2, 1, 2, 2, 3, 1, 2, 2, 3, 2, 3, 3, 4];
    ret := 0;
    var m: nat := mask;
    while m != 0
      invariant ret + Pop(m) == Pop(mask)
      decreases m
    {
      var t := m % 16;
      NibbleStep(m);
      CountTable(t);
      ret := ret + nibblebits[t];
      m := m / 16;
    }
    PopIsSize(mask);
    OnesAtMostWidth(mask);
  }

  lemma OnesAtMostWidth(w: Word)
    ensures |Ones(w)| <= WIDTH
  {
    SubsetSize(Ones(w), Upto(WIDTH));
  }

  /** Taking the lowest digit out of a word lowers the count by one and can be undone. */
  lemma TakingLowest(w: Word)
    requires w > 0
    ensures LowIndex(w) < WIDTH
    ensures var b := Pow2(LowIndex(w));
            b < MODULUS && Pop(AndNot(w, b)) + 1 == Pop(w) && Or(AndNot(w, b), b) == w
  {
    var k := LowIndex(w);
    LowIndexIsLeast(w);
    WordDigits(w, k);
    OnesOfPow2(k);
    var b: Word := Pow2(k);
    OnesAndNot(w, b);
    PopIsSize(w);
    PopIsSize(AndNot(w, b));
    OnesOr(AndNot(w, b), b);
    assert Ones(AndNot(w, b)) + {k} == Ones(w);
    OnesInjective(Or(AndNot(w, b), b), w);
  }

  /** Putting an absent digit into a word raises the count by one and can be undone. */
  lemma PuttingBack(w: Word, k: nat)
    requires k < WIDTH && !Bit(w, k)
    ensures var b := Pow2(k);
            && b < MODULUS && Or(w, b) < MODULUS
            && Pop(Or(w, b)) == Pop(w) + 1 && AndNot(Or(w, b), b) == w
  {
    OnesOfPow2(k);
    var b: Word := Pow2(k);
    OnesOr(w, b);
    PopIsSize(w);
    PopIsSize(Or(w, b));
    OnesAndNot(Or(w, b), b);
    assert Ones(Or(w, b)) - {k} == Ones(w);
    OnesInjective(AndNot(Or(w, b), b), w);
  }
}
