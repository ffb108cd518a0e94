/** A segment of object slots whose free slots are the set digits of one word. */
module Segments {
  import opened Options
  import opened Words
  import opened Bits

  class Segment {
    var flag: Word

    /** The free slots. */
    ghost function Free(): set<nat>
      reads this
    {
      Ones(flag)
    }

    constructor ()
      ensures Free() == Upto(WIDTH)
    {
      flag := MODULUS - 1;
      new;
      AllOnes();
    }

    /** Takes the lowest free slot, if there is one; `id` is the word its release must be given. */
    method Acquire() returns (slot: Option<nat>, id: Word)
      modifies this
      ensures old(Free()) == {} ==> slot.None? && flag == old(flag)
      ensures old(Free()) != {} ==>
                && slot.Some? && slot.value in old(Free()) && (forall k :: k in old(Free()) ==> slot.value <= k)
                && id == Pow2(slot.value) && Ones(id) == {slot.value}
                && Free() == old(Free()) - {slot.value}
    {
      OnesOfZero();
      OnesInjective(flag, 0);
      slot, id := None, 0;
      if flag != 0 {
        LowIndexIsLeast(flag);
        id := GetBit(flag);
        OnesOfPow2(LowIndex(flag));
        OnesAndNot(flag, id);
        flag := AndNot(flag, id);
        LowIndexIsLeast(id);
        var first := FindFirstBit(id);
        assert LowIndex(id) in Ones(id);
        slot := Some(first - 1);
      }
    }

    /** Gives slots back. */
    method Release(id: Word)
      modifies this
      ensures Free() == old(Free()) + Ones(id)
    {
      OnesOr(flag, id);
      flag := Or(flag, id);
    }

    method Size() returns (n: nat)
      ensures n == |Free()|
    {
      n := CountBit(flag);
    }

    method Full() returns (b: bool)
      ensures b <==> Free() == {}
    {
      OnesOfZero();
      OnesInjective(flag, 0);
      b := flag == 0;
    }
  }
}
