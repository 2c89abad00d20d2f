/** Bitwise operations on machine words, by recursion on their bits, and what they compute
    when the masks are blocks of ones. */
module Bits {
  import opened Words
  import opened Arithmetic

  function And(x: nat, y: nat): (r: nat)
    ensures r <= x && r <= y
  {
    if x == 0 || y == 0 then 0
    else 2 * And(x / 2, y / 2) + if x % 2 == 1 && y % 2 == 1 then 1 else 0
  }

  function Or(x: nat, y: nat): nat
    decreases x + y
  {
    if x == 0 then y
    else if y == 0 then x
    else 2 * Or(x / 2, y / 2) + if x % 2 == 1 || y % 2 == 1 then 1 else 0
  }

  function Xor(x: nat, y: nat): nat
    decreases x + y
  {
    if x == 0 then y
    else if y == 0 then x
    else 2 * Xor(x / 2, y / 2) + if x % 2 != y % 2 then 1 else 0
  }

  lemma {:induction false} OrBound(x: nat, y: nat, n: nat)
    requires x < Pow2(n) && y < Pow2(n)
    ensures Or(x, y) < Pow2(n)
  {
    if x != 0 && y != 0 {
      OrBound(x / 2, y / 2, n - 1);
    }
  }

  lemma {:induction false} XorBound(x: nat, y: nat, n: nat)
    requires x < Pow2(n) && y < Pow2(n)
    ensures Xor(x, y) < Pow2(n)
  {
    if x != 0 && y != 0 {
      XorBound(x / 2, y / 2, n - 1);
    }
  }

  lemma Pow2Of32()
    ensures Pow2(32) == 0x1_0000_0000
  {
    assert Pow2(4) == 16;
    Pow2Sum(4, 4);
    Pow2Sum(8, 8);
    Pow2Sum(16, 16);
  }

  function And32(x: uint32, y: uint32): uint32 {
    And(x, y)
  }

  function Or32(x: uint32, y: uint32): uint32 {
    Pow2Of32();
    OrBound(x, y, 32);
    Or(x, y)
  }

  function Xor32(x: uint32, y: uint32): uint32 {
    Pow2Of32();
    XorBound(x, y, 32);
    Xor(x, y)
  }

  function Not32(x: uint32): uint32 {
    0xFFFF_FFFF - x
  }

  /** A shift by 32 or more gives zero, as in the source language. */
  function Shl32(x: uint32, n: nat): uint32 {
    Wrap32(x * Pow2(n))
  }

  function Shr32(x: uint32, n: nat): uint32 {
    QuotientBelow(x, Pow2(n));
    x / Pow2(n)
  }

  // ----- masks that are blocks of ones -----

  lemma AndOdd(x: nat, y: nat)
    ensures And(x, 2 * y + 1) == 2 * And(x / 2, y) + x % 2
  {
    assert (2 * y + 1) / 2 == y && (2 * y + 1) % 2 == 1;
  }

  lemma {:induction false} AndLowMask(x: nat, s: nat)
    ensures And(x, Pow2(s) - 1) == x % Pow2(s)
  {
    if s > 0 {
      AndLowMask(x / 2, s - 1);
      AndOdd(x, Pow2(s - 1) - 1);
      ModDouble(x, Pow2(s - 1));
    }
  }

  lemma ModDouble(x: nat, p: nat)
    requires p > 0
    ensures x % (2 * p) == 2 * ((x / 2) % p) + x % 2
  {
    var y := x / 2;
    var q, r := y / p, y % p;
    assert x == 2 * (q * p + r) + x % 2;
    assert x == q * (2 * p) + (2 * r + x % 2);
    RemainderUnique(x, 2 * p, q, 2 * r + x % 2);
  }

  lemma {:induction false} OrDisjoint(c: nat, s: nat, y: nat)
    requires y < Pow2(s)
    ensures Or(c * Pow2(s), y) == c * Pow2(s) + y
  {
    if s == 0 {
      assert y == 0;
    } else {
      hide Or;
      var p := Pow2(s - 1);
      assert c * Pow2(s) == 2 * (c * p);
      OrEven(c * p, y);
      OrDisjoint(c, s - 1, y / 2);
    }
  }

  lemma OrEven(x: nat, y: nat)
    ensures Or(2 * x, y) == 2 * Or(x, y / 2) + y % 2
  {
    assert (2 * x) / 2 == x;
  }

  lemma {:induction false} AndHighMask(x: nat, s: nat, n: nat)
    requires s <= n && x < Pow2(n)
    ensures Pow2(s) <= Pow2(n) && And(x, Pow2(n) - Pow2(s)) == x - x % Pow2(s)
  {
    hide And;
    if s == 0 {
      AndLowMask(x, n);
      RemainderUnique(x, Pow2(n), 0, x);
    } else {
      var x', p, q := x / 2, Pow2(s - 1), Pow2(n - 1);
      AndHighMask(x', s - 1, n - 1);
      assert And(x, 2 * (q - p)) == 2 * (x' - x' % p) by { AndEven(x, q - p); }
      ModDouble(x, p);
    }
  }

  lemma AndEven(x: nat, y: nat)
    ensures And(x, 2 * y) == 2 * And(x / 2, y)
  {
    assert (2 * y) / 2 == y;
  }
}
