// Python's bitwise operators on unbounded integers, which take negative numbers in two's
// complement; the masks of the Windows API modules are built and inspected with them.
module Bits {
  function Pow2(k: nat): (p: nat)
    ensures p >= 1
  {
    if k == 0 then 1 else 2 * Pow2(k - 1)
  }

  /** Python's `a & b` for b >= 0, bit by bit from the lowest; a negative `a` is taken in two's
      complement, as Python does. */
  function And(a: int, b: nat): nat
    decreases b
  {
    if b == 0 then 0 else 2 * And(a / 2, b / 2) + (if a % 2 == 1 && b % 2 == 1 then 1 else 0)
  }

  /** Python's `a | b`, bit by bit from the lowest; once `b` is 0 (no bits left) the remaining
      bits of `a`, sign included, are kept, and once it is -1 (all bits set) so is the result. */
  function Or(a: int, b: int): int
    decreases if b >= 0 then b else -b - 1
  {
    if b == 0 then a
    else if b == -1 then -1
    else 2 * Or(a / 2, b / 2) + (if a % 2 == 1 || b % 2 == 1 then 1 else 0)
  }

  /** Bit `k` of `a` in two's complement: the lowest bit after `k` halvings (floor division). */
  predicate BitSet(a: int, k: nat)
    decreases k
  {
    if k == 0 then a % 2 == 1 else BitSet(a / 2, k - 1)
  }

  /** `a & 2^k` is 2^k when bit k of `a` is set and 0 otherwise, so `result & 256` and
      `result & 16` test single bits. */
  lemma {:induction false} AndPow2(a: int, k: nat)
    ensures And(a, Pow2(k)) == if BitSet(a, k) then Pow2(k) else 0
    decreases k
  {
    if k > 0 {
      var p := Pow2(k - 1);
      AndPow2(a / 2, k - 1);
      AndStep(a, p);
    }
  }

  /** One step of the bitwise loop on an even mask. */
  lemma AndStep(a: int, p: nat)
    requires p >= 1
    ensures And(a, 2 * p) == 2 * And(a / 2, p)
  {
    assert (2 * p) / 2 == p && (2 * p) % 2 == 0;
  }

  /** Or-ing a number below 2^k into one whose low k bits are clear is an addition: the flags of
      a mask never overlap. */
  lemma {:induction false} OrDisjoint(m: int, b: nat, k: nat)
    requires b < Pow2(k)
    ensures Or(m * Pow2(k), b) == m * Pow2(k) + b
    decreases k
  {
    if k > 0 && b > 0 {
      var p := Pow2(k - 1);
      var x := m * p;
      assert m * Pow2(k) == 2 * x;
      assert (2 * x) / 2 == x && (2 * x) % 2 == 0;
      OrDisjoint(m, b / 2, k - 1);
    }
  }

  lemma {:induction false} NoBitOfZero(k: nat)
    ensures !BitSet(0, k)
  {
    if k > 0 {
      NoBitOfZero(k - 1);
    }
  }

  lemma {:induction false} AllBitsOfMinusOne(k: nat)
    ensures BitSet(-1, k)
  {
    if k > 0 {
      AllBitsOfMinusOne(k - 1);
    }
  }

  /** A bit is set in `a | b` exactly when it is set in `a` or in `b`: each flag or-ed into a mask
      can be read back from it. */
  lemma {:induction false} OrBit(a: int, b: int, k: nat)
    ensures BitSet(Or(a, b), k) <==> BitSet(a, k) || BitSet(b, k)
    decreases k
  {
    if b == 0 {
      NoBitOfZero(k);
    } else if b == -1 {
      AllBitsOfMinusOne(k);
    } else {
      var low := if a % 2 == 1 || b % 2 == 1 then 1 else 0;
      var x := Or(a / 2, b / 2);
      assert (2 * x + low) / 2 == x && (2 * x + low) % 2 == low;
      if k > 0 {
        OrBit(a / 2, b / 2, k - 1);
      }
    }
  }

  lemma {:induction false} Pow2Add(a: nat, b: nat)
    ensures Pow2(a + b) == Pow2(a) * Pow2(b)
    decreases a
  {
    if a > 0 {
      Pow2Add(a - 1, b);
      assert Pow2(a + b) == 2 * Pow2(a - 1 + b);
    }
  }

  /** The powers the 32-bit masks are made of. */
  lemma Pow2Values()
    ensures Pow2(29) == 0x2000_0000 && Pow2(30) == 0x4000_0000 && Pow2(31) == 0x8000_0000
  {
    assert Pow2(8) == 256;
    Pow2Add(8, 8);
    Pow2Add(16, 8);
    Pow2Add(24, 5);
    assert Pow2(5) == 32;
  }

  /** Bit `k` of 2^j is set exactly when k == j. */
  lemma {:induction false} PowBits(j: nat, k: nat)
    ensures BitSet(Pow2(j), k) <==> k == j
    decreases j
  {
    if j == 0 {
      if k > 0 {
        NoBitOfZero(k - 1);
      }
    } else if k > 0 {
      assert Pow2(j) / 2 == Pow2(j - 1);
      PowBits(j - 1, k - 1);
    }
  }

  /** Bit `k` of -2^j is set exactly when k >= j. */
  lemma {:induction false} MinusPowBits(j: nat, k: nat)
    ensures BitSet(-(Pow2(j) as int), k) <==> k >= j
    decreases j
  {
    if j == 0 {
      AllBitsOfMinusOne(k);
    } else {
      var m: int := -(Pow2(j - 1) as int);
      assert -(Pow2(j) as int) == 2 * m;
      if k > 0 {
        MinusPowBits(j - 1, k - 1);
      }
    }
  }
}
