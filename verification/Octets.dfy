/** Byte strings as big-endian numbers, and their exclusive or. */
module Octets {
  import opened Types
  import opened Bits

  /** 256 to the power n. */
  function Pow256(n: nat): nat {
    if n == 0 then 1 else 0x100 * Pow256(n - 1)
  }

  function FromBytes(s: Bytes): nat {
    if s == [] then 0 else 0x100 * FromBytes(s[..|s| - 1]) + s[|s| - 1]
  }

  /** The n low bytes of x, most significant first. */
  function ToBytes(x: nat, n: nat): (s: Bytes)
    ensures |s| == n
  {
    if n == 0 then [] else ToBytes(x / 0x100, n - 1) + [x % 0x100]
  }

  function Zeros(n: nat): (s: Bytes)
    ensures |s| == n
  {
    seq(n, i => 0)
  }

  lemma ShiftByte(n: nat)
    ensures Shl(n, 8) == 0x100 * n
  {
    assert Shl(n, 8) == 2 * Shl(n, 7) == 4 * Shl(n, 6) == 8 * Shl(n, 5) == 16 * Shl(n, 4);
    assert Shl(n, 4) == 2 * Shl(n, 3) == 4 * Shl(n, 2) == 8 * Shl(n, 1) == 16 * Shl(n, 0);
  }

  function XorByte(a: byte, b: byte): byte {
    ShiftByte(1);
    XorBound(a, b, 8);
    Xor(a, b)
  }

  function XorBytes(a: Bytes, b: Bytes): (s: Bytes)
    requires |a| == |b|
    ensures |s| == |a|
  {
    seq(|a|, i requires 0 <= i < |a| => XorByte(a[i], b[i]))
  }

  lemma {:induction false} FromToBytes(x: nat, n: nat)
    requires x < Pow256(n)
    ensures FromBytes(ToBytes(x, n)) == x
  {
    if n > 0 {
      FromToBytes(x / 0x100, n - 1);
      assert ToBytes(x, n)[..n - 1] == ToBytes(x / 0x100, n - 1);
    }
  }

  lemma {:induction false} ToFromBytes(s: Bytes)
    ensures FromBytes(s) < Pow256(|s|)
    ensures ToBytes(FromBytes(s), |s|) == s
  {
    if s != [] {
      ToFromBytes(s[..|s| - 1]);
      assert FromBytes(s) / 0x100 == FromBytes(s[..|s| - 1]);
      assert s == s[..|s| - 1] + [s[|s| - 1]];
    }
  }

  lemma ToBytesInjective(x: nat, y: nat, n: nat)
    requires x < Pow256(n) && y < Pow256(n)
    requires ToBytes(x, n) == ToBytes(y, n)
    ensures x == y
  {
    FromToBytes(x, n);
    FromToBytes(y, n);
  }

  lemma MulAssociates(x: nat, y: nat, z: nat)
    ensures x * (y * z) == (x * y) * z
  {
  }

  lemma {:induction false} FromBytesConcat(a: Bytes, b: Bytes)
    ensures FromBytes(a + b) == Pow256(|b|) * FromBytes(a) + FromBytes(b)
  {
    if b == [] {
      assert a + b == a;
    } else {
      var b' := b[..|b| - 1];
      assert (a + b)[..|a + b| - 1] == a + b';
      FromBytesConcat(a, b');
      MulAssociates(0x100, Pow256(|b'|), FromBytes(a));
    }
  }

  lemma {:induction false} FromZeros(n: nat)
    ensures FromBytes(Zeros(n)) == 0
  {
    if n > 0 {
      FromZeros(n - 1);
      assert Zeros(n)[..n - 1] == Zeros(n - 1);
    }
  }

  lemma {:induction false} ToBytesPad(x: nat, n: nat)
    requires x < Pow256(n)
    ensures ToBytes(x, n + 2) == [0, 0] + ToBytes(x, n)
  {
    if n == 0 {
      assert ToBytes(x, 2) == ToBytes(x, 1) + [0];
      assert ToBytes(x, 1) == ToBytes(x, 0) + [0];
    } else {
      ToBytesPad(x / 0x100, n - 1);
    }
  }

  lemma LowWord(x: nat, y: u16)
    ensures (x * 0x1_0000 + y) % 0x100 == y % 0x100
    ensures (x * 0x1_0000 + y) / 0x100 == x * 0x100 + y / 0x100
    ensures (x * 0x100 + y / 0x100) % 0x100 == y / 0x100
    ensures (x * 0x100 + y / 0x100) / 0x100 == x
  {
  }

  lemma ToBytesStep(x: nat, n: nat)
    ensures ToBytes(x, n + 1) == ToBytes(x / 0x100, n) + [x % 0x100]
  {
  }

  lemma {:induction false} ToBytesZero(n: nat)
    ensures ToBytes(0, n) == Zeros(n)
  {
    if n > 0 {
      ToBytesZero(n - 1);
    }
  }

  lemma ToBytesTail(x: nat, y: u16, m: nat)
    ensures ToBytes(x * 0x1_0000 + y, m + 2) == ToBytes(x, m) + ToBytes(y, 2)
  {
    ToBytesStep(y, 1);
    ToBytesStep(y / 0x100, 0);
    hide ToBytes;
    LowWord(x, y);
    var z, w := x * 0x1_0000 + y, x * 0x100 + y / 0x100;
    ToBytesStep(z, m + 1);
    ToBytesStep(w, m);
    assert ToBytes(y, 2) == [y / 0x100, y % 0x100];
    assert ToBytes(z, m + 2) == ToBytes(x, m) + [y / 0x100] + [y % 0x100];
  }

  lemma XorBytesCancel(a: Bytes, k: Bytes)
    requires |a| == |k|
    ensures XorBytes(XorBytes(a, k), k) == a
  {
    forall i | 0 <= i < |a|
      ensures XorBytes(XorBytes(a, k), k)[i] == a[i]
    {
      XorCancel(a[i], k[i]);
    }
  }

  lemma XorBytesCommute(a: Bytes, b: Bytes)
    requires |a| == |b|
    ensures XorBytes(a, b) == XorBytes(b, a)
  {
    forall i | 0 <= i < |a|
      ensures XorBytes(a, b)[i] == XorBytes(b, a)[i]
    {
      XorCommutes(a[i], b[i]);
    }
  }

  /** The byte-wise exclusive or is the exclusive or of the numbers. */
  lemma {:induction false} FromXorBytes(a: Bytes, b: Bytes)
    requires |a| == |b|
    ensures FromBytes(XorBytes(a, b)) == Xor(FromBytes(a), FromBytes(b))
    decreases |a|
  {
    if a != [] {
      var n := |a| - 1;
      FromXorBytes(a[..n], b[..n]);
      assert XorBytes(a, b)[..n] == XorBytes(a[..n], b[..n]);
      var p, q := FromBytes(a[..n]), FromBytes(b[..n]);
      ShiftByte(1);
      ShiftByte(p);
      ShiftByte(q);
      ShiftByte(Xor(p, q));
      XorSplit(p, a[n], q, b[n], 8);
    }
  }
}
