/** Facts about products, quotients and powers of two that the solver needs spelled out. */
module Arithmetic {
  import opened Words

  lemma MulMonotone(x: int, y: int, s: int)
    requires x <= y && s >= 0
    ensures x * s <= y * s
  {
  }

  lemma QuotientUnique(a: int, d: int, q: int, r: int)
    requires d > 0 && 0 <= r < d && a == q * d + r
    ensures a / d == q
  {
    var q', r' := a / d, a % d;
    assert (q - q') * d == r' - r;
    if q < q' { MulMonotone(q - q', -1, d); }
    if q > q' { MulMonotone(1, q - q', d); }
  }

  lemma QuotientRange(a: int, s: int, i: int)
    requires s > 0
    ensures i * s <= a < i * s + s <==> a / s == i
  {
    if i * s <= a < i * s + s {
      QuotientUnique(a, s, i, a - i * s);
    }
  }

  lemma QuotientBound(a: int, s: int, p: int)
    requires s > 0 && 0 <= a < p * s
    ensures 0 <= a / s < p
  {
    if a / s >= p {
      MulMonotone(p, a / s, s);
    }
  }

  lemma MulDivLower(g: nat, p: nat, n: nat)
    requires p > 0 && n * p <= g
    ensures g / p >= n
  {
    var q := g / p;
    assert g < q * p + p;
    if q < n {
      MulMonotone(q + 1, n, p);
    }
  }

  lemma DivDiv(a: nat, s: nat)
    requires s > 0
    ensures (a / s) / 2 == a / (2 * s)
  {
    var q, r := a / s, a % s;
    var t := q / 2;
    assert a == q * s + r;
    assert a == t * (2 * s) + ((q % 2) * s + r) by {
      assert q * s == (2 * t + q % 2) * s == t * (2 * s) + (q % 2) * s;
    }
    assert 0 <= (q % 2) * s + r < 2 * s by {
      assert q % 2 == 0 || q % 2 == 1;
    }
    QuotientUnique(a, 2 * s, t, (q % 2) * s + r);
  }

  lemma DivMod(g: int, p: int, q: int)
    requires p > 0 && q == g / p
    ensures g == q * p + g % p
  {
  }

  lemma {:induction false} Pow2Monotone(m: nat, n: nat)
    requires m <= n
    ensures Pow2(m) <= Pow2(n)
  {
    if m < n {
      Pow2Monotone(m, n - 1);
    }
  }

  /** Number of bits of `g`. */
  function BitLen(g: nat): nat {
    if g == 0 then 0 else 1 + BitLen(g / 2)
  }

  lemma {:induction false} BitLenBounds(g: nat)
    requires g > 0
    ensures Pow2(BitLen(g) - 1) <= g < 2 * Pow2(BitLen(g) - 1)
  {
    if g == 1 {
    } else {
      BitLenBounds(g / 2);
    }
  }

  /** Only one bit length fits a pair of powers of two. */
  lemma BitLenUnique(g: nat, l: nat)
    requires l > 0 && Pow2(l - 1) <= g < Pow2(l)
    ensures BitLen(g) == l
  {
    BitLenBounds(g);
    if BitLen(g) < l { Pow2Monotone(BitLen(g), l - 1); }
    if BitLen(g) > l { Pow2Monotone(l, BitLen(g) - 1); }
  }

  lemma BitLenAtMost(g: nat, l: nat)
    requires g < Pow2(l)
    ensures BitLen(g) <= l
  {
    if g > 0 && BitLen(g) > l {
      BitLenBounds(g);
      Pow2Monotone(l, BitLen(g) - 1);
    }
  }

  lemma MulCancel(x: int, y: int, p: int)
    requires p > 0
    ensures x < y <==> x * p < y * p
  {
    if x < y { MulMonotone(x + 1, y, p); } else { MulMonotone(y, x, p); }
  }

  lemma RemainderUnique(a: int, d: int, q: int, r: int)
    requires d > 0 && 0 <= r < d && a == q * d + r
    ensures a % d == r && a / d == q
  {
    QuotientUnique(a, d, q, r);
    DivMod(a, d, q);
  }

  lemma QuotientBelow(x: int, p: int)
    requires p >= 1 && x >= 0
    ensures 0 <= x / p <= x
  {
    var q := x / p;
    DivMod(x, p, q);
    if q < 0 { MulMonotone(q, -1, p); }
    MulMonotone(1, p, if q > 0 then q else 0);
  }

  lemma {:induction false} Pow256IsPow2(n: nat)
    ensures Pow256(n) == Pow2(8 * n)
  {
    if n > 0 {
      Pow256IsPow2(n - 1);
      assert Pow2(8) == 0x100;
      Pow2Sum(8 * (n - 1), 8);
    }
  }

  /** A byte string read as a number is its first part shifted, plus its second part. */
  lemma {:induction false} ConcatBE(a: seq<byte>, b: seq<byte>)
    ensures GetBE(a + b) == GetBE(a) * Pow256(|b|) + GetBE(b)
  {
    if b == [] {
      assert a + b == a;
    } else {
      var c := b[..|b| - 1];
      ConcatBE(a, c);
      assert (a + b)[..|a + b| - 1] == a + c;
      assert GetBE(a) * Pow256(|b|) == GetBE(a) * Pow256(|c|) * 0x100;
    }
  }

  lemma SplitBE(x: seq<byte>, i: nat)
    requires i <= |x|
    ensures GetBE(x) / Pow256(|x| - i) == GetBE(x[..i])
    ensures GetBE(x) % Pow256(|x| - i) == GetBE(x[i..])
  {
    assert x == x[..i] + x[i..];
    ConcatBE(x[..i], x[i..]);
    PutGet(x[i..]);
    RemainderUnique(GetBE(x), Pow256(|x| - i), GetBE(x[..i]), GetBE(x[i..]));
  }
}
