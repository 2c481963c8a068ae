/** Machine integers as bounded mathematical integers, and the bitwise operations the sources use on them. */
module Bytes {
  import opened Arith

  type byte = x: int | 0 <= x < 0x100
  type uint16 = x: int | 0 <= x < 0x1_0000
  type uint32 = x: int | 0 <= x < U32

  const U32: int := 0x1_0000_0000

  function Zeros(k: nat): (r: seq<byte>)
    ensures |r| == k
  {
    if k == 0 then [] else Zeros(k - 1) + [0]
  }

  function Pow2(k: nat): (r: nat)
    ensures r >= 1
  {
    if k == 0 then 1 else 2 * Pow2(k - 1)
  }

  /** Bitwise `and` of two non-negative integers. */
  function BitAnd(a: nat, b: nat): nat
    decreases a + b
  {
    if a == 0 || b == 0 then 0
    else (if a % 2 == 1 && b % 2 == 1 then 1 else 0) + 2 * BitAnd(a / 2, b / 2)
  }

  lemma MaskDigit(x: nat, m: nat)
    requires m > 0
    ensures BitAnd(x, 2 * m - 1) == x % 2 + 2 * BitAnd(x / 2, m - 1)
  {
    assert (2 * m - 1) / 2 == m - 1 && (2 * m - 1) % 2 == 1;
  }

  lemma MaskStep(x: nat, m: nat)
    requires m > 0 && BitAnd(x / 2, m - 1) == (x / 2) % m
    ensures BitAnd(x, 2 * m - 1) == x % (2 * m)
  {
    MaskDigit(x, m);
    DoubleModulus(x, m);
  }

  /** Masking with one less than a power of two is a remainder. */
  lemma {:induction false} MaskIsRemainder(x: nat, k: nat)
    ensures BitAnd(x, Pow2(k) - 1) == x % Pow2(k)
  {
    if k > 0 {
      MaskIsRemainder(x / 2, k - 1);
      MaskStep(x, Pow2(k - 1));
    }
  }

  lemma DoubleModulus(x: nat, m: nat)
    requires m > 0
    ensures x % (2 * m) == x % 2 + 2 * ((x / 2) % m)
  {
    var q, r := (x / 2) / m, (x / 2) % m;
    DivDef(x / 2, m);
    assert q * (2 * m) == 2 * (q * m);
    RemainderIs(x, 2 * m, q, x % 2 + 2 * r);
  }

  /** Bitwise exclusive or of two non-negative integers. */
  function XorNat(a: nat, b: nat): nat
    decreases a + b
  {
    if a == 0 && b == 0 then 0 else (a + b) % 2 + 2 * XorNat(a / 2, b / 2)
  }

  lemma {:induction false} XorNatBound(a: nat, b: nat, k: nat)
    requires a < Pow2(k) && b < Pow2(k)
    ensures XorNat(a, b) < Pow2(k)
    decreases k
  {
    if k > 0 && (a > 0 || b > 0) {
      XorNatBound(a / 2, b / 2, k - 1);
    }
  }

  lemma XorNatDigits(a: nat, b: nat)
    ensures XorNat(a, b) / 2 == XorNat(a / 2, b / 2) && XorNat(a, b) % 2 == (a + b) % 2
  {
  }

  lemma SameDigits(y: nat, a: nat, b: nat, x: nat)
    requires y / 2 == a / 2 && x % 2 == (a + b) % 2 && y % 2 == (x + b) % 2
    ensures y == a
  {
  }

  lemma {:induction false} XorNatUndo(a: nat, b: nat)
    ensures XorNat(XorNat(a, b), b) == a
    decreases a + b
  {
    if a > 0 || b > 0 {
      XorNatDigits(a, b);
      XorNatUndo(a / 2, b / 2);
      XorNatDigits(XorNat(a, b), b);
      SameDigits(XorNat(XorNat(a, b), b), a, b, XorNat(a, b));
    }
  }

  /** Binary digit `k`, the least significant one being digit 0. */
  function Bit(x: nat, k: nat): nat {
    if k == 0 then x % 2 else Bit(x / 2, k - 1)
  }

  /** Each digit of an exclusive or is the sum of the digits modulo two. */
  lemma {:induction false} XorNatBits(a: nat, b: nat, k: nat)
    ensures Bit(XorNat(a, b), k) == (Bit(a, k) + Bit(b, k)) % 2
  {
    XorNatDigits(a, b);
    if k > 0 { XorNatBits(a / 2, b / 2, k - 1); }
  }

  function Xor(a: byte, b: byte): byte
  {
    assert Pow2(8) == 0x100;
    XorNatBound(a, b, 8);
    XorNat(a, b)
  }

  /** Exclusive or of bytes, bit by bit. */
  lemma XorBits(a: byte, b: byte, k: nat)
    ensures Bit(Xor(a, b), k) == (Bit(a, k) + Bit(b, k)) % 2
  {
    XorNatBits(a, b, k);
  }

  /** Exclusive or with the same byte a second time restores the first operand. */
  lemma XorUndo(a: byte, b: byte)
    ensures Xor(Xor(a, b), b) == a
  {
    XorNatUndo(a, b);
  }
}
