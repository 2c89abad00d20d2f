/** Bytes, machine words and powers of two shared by the other modules.
    Machine integers are mathematical integers in their range; wrap-around is written out. */
module Words {

  type byte = x: int | 0 <= x < 0x100
  type uint32 = x: int | 0 <= x < 0x1_0000_0000
  type uint64 = x: int | 0 <= x < 0x1_0000_0000_0000_0000

  datatype Option<+T> = None | Some(value: T)

  function Wrap32(x: int): uint32 {
    x % 0x1_0000_0000
  }

  function Pow2(n: nat): (p: int)
    ensures p >= 1
  {
    if n == 0 then 1 else 2 * Pow2(n - 1)
  }

  lemma {:induction false} Pow2Sum(m: nat, n: nat)
    ensures Pow2(m + n) == Pow2(m) * Pow2(n)
  {
    if n == 0 {
    } else {
      Pow2Sum(m, n - 1);
      assert Pow2(m + n) == 2 * Pow2(m + (n - 1));
    }
  }

  /** Big-endian encoding of `v` on `n` bytes. */
  function PutBE(v: nat, n: nat): (b: seq<byte>)
    ensures |b| == n
  {
    if n == 0 then [] else PutBE(v / 0x100, n - 1) + [v % 0x100]
  }

  /** The number a big-endian byte string denotes. */
  function GetBE(b: seq<byte>): nat {
    if b == [] then 0 else GetBE(b[..|b| - 1]) * 0x100 + b[|b| - 1]
  }

  function Pow256(n: nat): (p: int)
    ensures p >= 1
  {
    if n == 0 then 1 else 0x100 * Pow256(n - 1)
  }

  /** Decoding undoes encoding for every value that fits. */
  lemma {:induction false} GetPut(v: nat, n: nat)
    requires v < Pow256(n)
    ensures GetBE(PutBE(v, n)) == v
  {
    if n == 0 {
    } else {
      var q, r := v / 0x100, v % 0x100;
      assert v == q * 0x100 + r && q < Pow256(n - 1);
      GetPut(q, n - 1);
      var b := PutBE(v, n);
      assert b[..|b| - 1] == PutBE(v / 0x100, n - 1);
    }
  }

  /** Encoding undoes decoding for every byte string. */
  lemma {:induction false} PutGet(b: seq<byte>)
    ensures GetBE(b) < Pow256(|b|)
    ensures PutBE(GetBE(b), |b|) == b
  {
    if b == [] {
    } else {
      PutGet(b[..|b| - 1]);
      var v := GetBE(b);
      assert v / 0x100 == GetBE(b[..|b| - 1]) && v % 0x100 == b[|b| - 1];
      assert b == b[..|b| - 1] + [b[|b| - 1]];
    }
  }

  lemma Pow256Of4()
    ensures Pow256(4) == 0x1_0000_0000
  {
    assert Pow256(2) == 0x1_0000;
    assert Pow256(3) == 0x100 * Pow256(2);
  }

  lemma Pow256Of8()
    ensures Pow256(8) == 0x1_0000_0000_0000_0000
  {
    Pow256Of4();
    assert Pow256(6) == 0x100 * (0x100 * Pow256(4));
    assert Pow256(8) == 0x100 * (0x100 * Pow256(6));
  }

  /** The 32-bit word stored big-endian in four bytes. */
  function Word(b: seq<byte>): (v: uint32)
    requires |b| == 4
  {
    PutGet(b);
    Pow256Of4();
    GetBE(b)
  }

  lemma WordOf(b: seq<byte>)
    requires |b| == 4
    ensures Word(b) == ((b[0] as int * 0x100 + b[1]) * 0x100 + b[2]) * 0x100 + b[3]
  {
    assert b[..3][..2] == b[..2] && b[..2][..1] == b[..1];
    assert GetBE(b[..1]) == b[0] by { assert b[..1][..0] == []; }
    assert GetBE(b[..2]) == b[0] as int * 0x100 + b[1];
    assert GetBE(b[..3]) == GetBE(b[..2]) * 0x100 + b[2];
  }

  lemma WordRoundTrip(v: uint32)
    ensures Word(PutBE(v, 4)) == v
  {
    Pow256Of4();
    GetPut(v, 4);
  }
}
