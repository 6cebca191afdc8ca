/** Arbitrary-precision naturals seen as strings of bits, bit 0 being the least significant. */
module Bits {
  predicate Bit(n: nat, k: nat) {
    if k == 0 then n % 2 == 1 else Bit(n / 2, k - 1)
  }

  function Shl(n: nat, k: nat): (r: nat)
    ensures n > 0 ==> r > 0
  {
    if k == 0 then n else 2 * Shl(n, k - 1)
  }

  function SetBit(n: nat, k: nat): nat {
    if k == 0 then n / 2 * 2 + 1 else n % 2 + 2 * SetBit(n / 2, k - 1)
  }

  function And(a: nat, b: nat): nat {
    if a == 0 || b == 0 then 0
    else (if a % 2 == 1 && b % 2 == 1 then 1 else 0) + 2 * And(a / 2, b / 2)
  }

  function Xor(a: nat, b: nat): nat {
    if a == 0 && b == 0 then 0
    else (if a % 2 != b % 2 then 1 else 0) + 2 * Xor(a / 2, b / 2)
  }

  /** Number of significant bits. */
  function BitLen(n: nat): nat {
    if n == 0 then 0 else 1 + BitLen(n / 2)
  }

  /** The number whose k lowest bits, and no others, are set. */
  function Mask(k: nat): nat {
    Shl(1, k) - 1
  }

  lemma {:induction false} BitOfShl(n: nat, d: nat, k: nat)
    ensures Bit(Shl(n, d), k) <==> k >= d && Bit(n, k - d)
  {
    if d > 0 {
      if k > 0 {
        assert Shl(n, d) / 2 == Shl(n, d - 1);
        BitOfShl(n, d - 1, k - 1);
      }
    }
  }

  lemma {:induction false} BitOfSetBit(n: nat, d: nat, k: nat)
    ensures Bit(SetBit(n, d), k) <==> k == d || Bit(n, k)
  {
    if d > 0 && k > 0 {
      assert SetBit(n, d) / 2 == SetBit(n / 2, d - 1);
      BitOfSetBit(n / 2, d - 1, k - 1);
    }
  }

  lemma {:induction false} BitOfZero(k: nat)
    ensures !Bit(0, k)
  {
    if k > 0 {
      BitOfZero(k - 1);
    }
  }

  lemma {:induction false} BitOfAnd(a: nat, b: nat, k: nat)
    ensures Bit(And(a, b), k) <==> Bit(a, k) && Bit(b, k)
  {
    if a == 0 || b == 0 {
      BitOfZero(k);
    } else if k > 0 {
      assert And(a, b) / 2 == And(a / 2, b / 2);
      BitOfAnd(a / 2, b / 2, k - 1);
    }
  }

  lemma {:induction false} BitOfMask(n: nat, k: nat)
    ensures Bit(Mask(n), k) <==> k < n
  {
    if n == 0 {
      BitOfZero(k);
    } else {
      assert Mask(n) == 2 * Mask(n - 1) + 1;
      if k > 0 {
        BitOfMask(n - 1, k - 1);
      }
    }
  }

  lemma {:induction false} BitBelowLen(n: nat, k: nat)
    requires Bit(n, k)
    ensures k < BitLen(n)
  {
    if n == 0 {
      BitOfZero(k);
    } else if k > 0 {
      BitBelowLen(n / 2, k - 1);
    }
  }

  lemma {:induction false} TopBit(n: nat)
    requires n > 0
    ensures BitLen(n) > 0 && Bit(n, BitLen(n) - 1)
  {
    if n / 2 > 0 {
      TopBit(n / 2);
    }
  }

  lemma {:induction false} BitLenOfMask(n: nat)
    ensures BitLen(Mask(n)) == n
  {
    if n > 0 {
      assert Mask(n) / 2 == Mask(n - 1);
      BitLenOfMask(n - 1);
    }
  }

  // ---- exclusive or ----

  lemma {:induction false} BitOfXor(a: nat, b: nat, k: nat)
    ensures Bit(Xor(a, b), k) <==> Bit(a, k) != Bit(b, k)
  {
    if a == 0 && b == 0 {
      BitOfZero(k);
    } else if k > 0 {
      assert Xor(a, b) / 2 == Xor(a / 2, b / 2);
      BitOfXor(a / 2, b / 2, k - 1);
    }
  }

  lemma {:induction false} XorZero(a: nat)
    ensures Xor(a, 0) == a
  {
    if a > 0 {
      XorZero(a / 2);
    }
  }

  lemma {:induction false} XorCancel(a: nat, b: nat)
    ensures Xor(Xor(a, b), b) == a
    decreases a + b
  {
    if a > 0 || b > 0 {
      XorCancel(a / 2, b / 2);
      assert Xor(a, b) / 2 == Xor(a / 2, b / 2);
    }
  }

  lemma {:induction false} XorCommutes(a: nat, b: nat)
    ensures Xor(a, b) == Xor(b, a)
    decreases a + b
  {
    if a > 0 || b > 0 {
      XorCommutes(a / 2, b / 2);
    }
  }

  lemma {:induction false} XorBound(a: nat, b: nat, k: nat)
    requires a < Shl(1, k) && b < Shl(1, k)
    ensures Xor(a, b) < Shl(1, k)
    decreases k
  {
    if k > 0 {
      XorBound(a / 2, b / 2, k - 1);
    }
  }

  lemma XorDouble(a: nat, x: nat, b: nat, y: nat)
    requires x < 2 && y < 2
    ensures Xor(2 * a + x, 2 * b + y) == 2 * Xor(a, b) + if x != y then 1 else 0
  {
    assert (2 * a + x) / 2 == a && (2 * a + x) % 2 == x;
    assert (2 * b + y) / 2 == b && (2 * b + y) % 2 == y;
  }

  lemma ShlStep(a: nat, k: nat)
    requires k > 0
    ensures Shl(a, k) == 2 * Shl(a, k - 1)
  {
  }

  /** One more bit on either side of a split. */
  lemma SplitStep(a: nat, x: nat, i: nat, b: nat, y: nat, j: nat, k: nat)
    requires i < 2 && j < 2
    requires Xor(Shl(a, k) + x, Shl(b, k) + y) == Shl(Xor(a, b), k) + Xor(x, y)
    ensures Xor(Shl(a, k + 1) + (2 * x + i), Shl(b, k + 1) + (2 * y + j))
         == Shl(Xor(a, b), k + 1) + Xor(2 * x + i, 2 * y + j)
  {
    hide Xor, Shl;
    var p, q := Shl(a, k) + x, Shl(b, k) + y;
    ShlStep(a, k + 1);
    ShlStep(b, k + 1);
    ShlStep(Xor(a, b), k + 1);
    XorDouble(x, i, y, j);
    XorDouble(p, i, q, j);
    assert Shl(a, k + 1) + (2 * x + i) == 2 * p + i;
    assert Shl(b, k + 1) + (2 * y + j) == 2 * q + j;
  }

  lemma SplitBase(a: nat, x: nat, b: nat, y: nat)
    requires x < Shl(1, 0) && y < Shl(1, 0)
    ensures Xor(Shl(a, 0) + x, Shl(b, 0) + y) == Shl(Xor(a, b), 0) + Xor(x, y)
  {
  }

  /** XOR works independently on the low k bits and on the bits above them. */
  lemma {:induction false} XorSplit(a: nat, x: nat, b: nat, y: nat, k: nat)
    requires x < Shl(1, k) && y < Shl(1, k)
    ensures Xor(Shl(a, k) + x, Shl(b, k) + y) == Shl(Xor(a, b), k) + Xor(x, y)
    decreases k
  {
    hide *;
    if k == 0 {
      SplitBase(a, x, b, y);
    } else {
      var x', i, y', j := x / 2, x % 2, y / 2, y % 2;
      assert x == 2 * x' + i && y == 2 * y' + j;
      ShlStep(1, k);
      XorSplit(a, x', b, y', k - 1);
      SplitStep(a, x', i, b, y', j, k - 1);
    }
  }
}
