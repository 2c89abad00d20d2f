/** What the instructions mean: bitwise operations bit by bit, byte and halfword accesses as bytes of memory, and
    the 64-bit products and quotients in hi and lo. */
module MipsMeaning {
  import opened Words
  import opened Arithmetic
  import opened Bits
  import opened MipsAlu
  import opened MipsSpec
  import opened MemoryTree
  import opened Preimages

  // ----- bits -----

  function Bit(x: nat, i: nat): nat {
    if i == 0 then x % 2 else Bit(x / 2, i - 1)
  }

  lemma {:induction false} BitIsBit(x: nat, i: nat)
    ensures Bit(x, i) in {0, 1}
    decreases i
  {
    if i > 0 { BitIsBit(x / 2, i - 1); }
  }

  lemma LowBit(a: nat, b: nat)
    requires b < 2
    ensures (2 * a + b) % 2 == b && (2 * a + b) / 2 == a
  {
  }

  lemma {:induction false} AndLow(x: nat, y: nat)
    ensures And(x, y) % 2 == (if x % 2 == 1 && y % 2 == 1 then 1 else 0) && And(x, y) / 2 == And(x / 2, y / 2)
  {
    LowBit(And(x / 2, y / 2), if x % 2 == 1 && y % 2 == 1 then 1 else 0);
  }

  lemma {:induction false} OrLow(x: nat, y: nat)
    ensures Or(x, y) % 2 == (if x % 2 == 1 || y % 2 == 1 then 1 else 0) && Or(x, y) / 2 == Or(x / 2, y / 2)
  {
    LowBit(Or(x / 2, y / 2), if x % 2 == 1 || y % 2 == 1 then 1 else 0);
  }

  lemma {:induction false} XorLow(x: nat, y: nat)
    ensures Xor(x, y) % 2 == (if x % 2 != y % 2 then 1 else 0) && Xor(x, y) / 2 == Xor(x / 2, y / 2)
  {
    LowBit(Xor(x / 2, y / 2), if x % 2 != y % 2 then 1 else 0);
  }

  /** Every bit of the result is the operation on the bits of the operands. */
  lemma {:induction false} BitwiseMeaning(x: nat, y: nat, i: nat)
    ensures Bit(And(x, y), i) == (if Bit(x, i) == 1 && Bit(y, i) == 1 then 1 else 0)
    ensures Bit(Or(x, y), i) == (if Bit(x, i) == 1 || Bit(y, i) == 1 then 1 else 0)
    ensures Bit(Xor(x, y), i) == (if Bit(x, i) != Bit(y, i) then 1 else 0)
    ensures Bit(x, i) in {0, 1}
    decreases i
  {
    hide And, Or, Xor;
    BitIsBit(x, i);
    AndLow(x, y);
    OrLow(x, y);
    XorLow(x, y);
    if i > 0 {
      BitwiseMeaning(x / 2, y / 2, i - 1);
    }
  }

  lemma {:induction false} NotMeaning(x: nat, n: nat, i: nat)
    requires x < Pow2(n) && i < n
    ensures Bit(Pow2(n) - 1 - x, i) == 1 - Bit(x, i)
    decreases i
  {
    if i > 0 {
      assert (Pow2(n) - 1 - x) / 2 == Pow2(n - 1) - 1 - x / 2;
      NotMeaning(x / 2, n - 1, i - 1);
    }
  }

  // ----- words as four bytes -----

  type Quad = b: seq<byte> | |b| == 4 witness [0, 0, 0, 0]

  lemma AndSplitZero(a: nat, b: nat, c: nat, d: nat)
    requires b < Pow2(0) && d < Pow2(0)
    ensures And(a * Pow2(0) + b, c * Pow2(0) + d) == And(a, c) * Pow2(0) + And(b, d)
  {
    assert Pow2(0) == 1 && b == 0 && d == 0;
  }

  lemma {:induction false} AndSplit(a: nat, b: nat, c: nat, d: nat, t: nat)
    requires b < Pow2(t) && d < Pow2(t)
    ensures And(a * Pow2(t) + b, c * Pow2(t) + d) == And(a, c) * Pow2(t) + And(b, d)
    decreases t
  {
    hide And, Pow2;
    if t == 0 {
      AndSplitZero(a, b, c, d);
    } else {
      Halves(a, b, t);
      Halves(c, d, t);
      var x, y := a * Pow2(t) + b, c * Pow2(t) + d;
      AndStep(x, y);
      AndStep(b, d);
      AndSplit(a, b / 2, c, d / 2, t - 1);
      Doubled(And(a, c), t);
      var u, w := And(a, c) * Pow2(t - 1), And(b / 2, d / 2);
      assert And(x / 2, y / 2) == u + w;
    }
  }

  lemma OrSplitZero(a: nat, b: nat, c: nat, d: nat)
    requires b < Pow2(0) && d < Pow2(0)
    ensures Or(a * Pow2(0) + b, c * Pow2(0) + d) == Or(a, c) * Pow2(0) + Or(b, d)
  {
    assert Pow2(0) == 1 && b == 0 && d == 0;
  }

  lemma {:induction false} OrSplit(a: nat, b: nat, c: nat, d: nat, t: nat)
    requires b < Pow2(t) && d < Pow2(t)
    ensures Or(a * Pow2(t) + b, c * Pow2(t) + d) == Or(a, c) * Pow2(t) + Or(b, d)
    decreases t
  {
    hide Or, Pow2;
    if t == 0 {
      OrSplitZero(a, b, c, d);
    } else {
      Halves(a, b, t);
      Halves(c, d, t);
      var x, y := a * Pow2(t) + b, c * Pow2(t) + d;
      OrStep(x, y);
      OrStep(b, d);
      OrSplit(a, b / 2, c, d / 2, t - 1);
      Doubled(Or(a, c), t);
      var u, w := Or(a, c) * Pow2(t - 1), Or(b / 2, d / 2);
      assert Or(x / 2, y / 2) == u + w;
    }
  }

  lemma Halves(a: nat, b: nat, t: nat)
    requires t > 0 && b < Pow2(t)
    ensures (a * Pow2(t) + b) / 2 == a * Pow2(t - 1) + b / 2 && (a * Pow2(t) + b) % 2 == b % 2 && b / 2 < Pow2(t - 1)
  {
    Doubled(a, t);
  }

  lemma Doubled(a: nat, t: nat)
    requires t > 0
    ensures a * Pow2(t) == 2 * (a * Pow2(t - 1))
  {
    assert Pow2(t) == 2 * Pow2(t - 1);
  }

  lemma AndStep(x: nat, y: nat)
    ensures And(x, y) == 2 * And(x / 2, y / 2) + if x % 2 == 1 && y % 2 == 1 then 1 else 0
  {
  }

  lemma OrStep(x: nat, y: nat)
    ensures Or(x, y) == 2 * Or(x / 2, y / 2) + if x % 2 == 1 || y % 2 == 1 then 1 else 0
  {
  }

  lemma {:induction false} XorOnes(x: nat, n: nat)
    requires x < Pow2(n)
    ensures Xor(Pow2(n) - 1, x) == Pow2(n) - 1 - x
  {
    if n > 0 {
      assert (Pow2(n) - 1) / 2 == Pow2(n - 1) - 1;
      XorOnes(x / 2, n - 1);
    }
  }

  lemma AndByte(a: nat, b: byte, c: nat, d: byte)
    ensures And(a * 0x100 + b, c * 0x100 + d) == And(a, c) * 0x100 + And(b, d)
  {
    assert Pow2(8) == 0x100;
    hide And, Pow2;
    AndSplit(a, b, c, d, 8);
  }

  /** And and or act on words byte by byte. */
  lemma AndOfBytes(b: Quad, m: Quad)
    ensures And32(Word(b), Word(m)) == ((And(b[0], m[0]) * 0x100 + And(b[1], m[1])) * 0x100 + And(b[2], m[2])) * 0x100 + And(b[3], m[3])
  {
    hide And, Word;
    WordOf(b);
    WordOf(m);
    AndByte((b[0] as int * 0x100 + b[1]) * 0x100 + b[2], b[3], (m[0] as int * 0x100 + m[1]) * 0x100 + m[2], m[3]);
    AndByte(b[0] as int * 0x100 + b[1], b[2], m[0] as int * 0x100 + m[1], m[2]);
    AndByte(b[0], b[1], m[0], m[1]);
  }

  lemma OrByte(a: nat, b: byte, c: nat, d: byte)
    ensures Or(a * 0x100 + b, c * 0x100 + d) == Or(a, c) * 0x100 + Or(b, d)
  {
    assert Pow2(8) == 0x100;
    hide Or, Pow2;
    OrSplit(a, b, c, d, 8);
  }

  lemma OrOfBytes(b: Quad, m: Quad)
    ensures Or32(Word(b), Word(m)) == ((Or(b[0], m[0]) * 0x100 + Or(b[1], m[1])) * 0x100 + Or(b[2], m[2])) * 0x100 + Or(b[3], m[3])
  {
    hide Or, Word;
    WordOf(b);
    WordOf(m);
    OrByte((b[0] as int * 0x100 + b[1]) * 0x100 + b[2], b[3], (m[0] as int * 0x100 + m[1]) * 0x100 + m[2], m[3]);
    OrByte(b[0] as int * 0x100 + b[1], b[2], m[0] as int * 0x100 + m[1], m[2]);
    OrByte(b[0], b[1], m[0], m[1]);
  }

  // ----- stores of a byte or a halfword -----

  /** `z` in the bytes from `i` up to `j`, `y` in the others. */
  function Patch(i: nat, j: nat, z: byte, y: byte): Quad
    requires i <= j <= 4
  {
    seq(4, k requires 0 <= k < 4 => if i <= k < j then z else y)
  }

  /** Masking with ones keeps a byte, masking with zeroes clears it. */
  lemma MaskByte(b: byte)
    ensures And(b, 0xFF) == b && And(b, 0) == 0 && Or(b, 0) == b && Or(0, b) == b
  {
    assert Pow2(8) == 0x100;
    AndLowMask(b, 8);
    RemainderUnique(b, 0x100, 0, b);
  }

  /** Clearing the bytes from `i` up to `j` and putting those of `v` there. */
  lemma MaskAndMerge(b: Quad, v: Quad, i: nat, j: nat)
    requires i <= j <= 4 && forall k :: 0 <= k < 4 && !(i <= k < j) ==> v[k] == 0
    ensures Or32(And32(Word(b), Word(Patch(i, j, 0, 0xFF))), Word(v)) == Word(b[..i] + v[i..j] + b[j..])
  {
    hide And, Or, Word;
    var m, r: Quad := Patch(i, j, 0, 0xFF), b[..i] + v[i..j] + b[j..];
    var c: Quad := seq(4, k requires 0 <= k < 4 => if i <= k < j then 0 else b[k]);
    forall k | 0 <= k < 4 ensures And(b[k], m[k]) == c[k] && Or(c[k], v[k]) == r[k] {
      MaskByte(b[k]);
      MaskByte(v[k]);
    }
    AndOfBytes(b, m);
    WordOf(c);
    OrOfBytes(c, v);
    WordOf(r);
  }

  lemma BytePowers()
    ensures Pow2(0) == 1 && Pow2(8) == 0x100 && Pow2(16) == 0x1_0000 && Pow2(24) == 0x100_0000
  {
    Pow2Sum(8, 8);
    Pow2Sum(16, 8);
  }

  /** A byte or halfword shifted to its place, and the complement of such a mask. */
  lemma ShiftedByte(v: byte, k: nat)
    requires k < 4
    ensures Shl32(v, 24 - 8 * k) == Word(Patch(k, k + 1, v, 0))
  {
    BytePowers();
    hide Pow2, Word;
    WordOf(Patch(k, k + 1, v, 0));
  }

  lemma ShiftedHalf(hi: byte, lo: byte, e: nat)
    requires e == 0 || e == 2
    ensures Shl32(hi as int * 0x100 + lo, 16 - 8 * e) == Word(if e == 0 then [hi, lo, 0, 0] else [0, 0, hi, lo])
  {
    BytePowers();
    hide Pow2, Word;
    WordOf(if e == 0 then [hi, lo, 0, 0] else [0, 0, hi, lo]);
  }

  lemma Complement(i: nat, j: nat)
    requires i <= j <= 4
    ensures Xor32(0xFFFF_FFFF, Word(Patch(i, j, 0xFF, 0))) == Word(Patch(i, j, 0, 0xFF))
  {
    hide Xor, Pow2, Word;
    Pow2Of32();
    XorOnes(Word(Patch(i, j, 0xFF, 0)), 32);
    WordOf(Patch(i, j, 0xFF, 0));
    WordOf(Patch(i, j, 0, 0xFF));
  }

  /** Storing a word that differs from memory in the bytes `y` only. */
  lemma StoreBytes(mem: seq<byte>, base: nat, b: Quad, y: seq<byte>, i: nat)
    requires base + 4 <= |mem| && b == mem[base..base + 4] && i + |y| <= 4
    ensures StoreWord(mem, base, Word(b[..i] + y + b[i + |y|..])) == mem[..base + i] + y + mem[base + i + |y|..]
  {
    hide PutBE, Word;
    var z: Quad := b[..i] + y + b[i + |y|..];
    WordBytesBack(z);
    assert mem[..base] + z + mem[base + 4..] == mem[..base + i] + y + mem[base + i + |y|..];
  }

  lemma WordBytesBack(z: Quad)
    ensures PutBE(Word(z), 4) == z
  {
    PutGet(z);
  }

  /** sb changes the byte at its address, and nothing else. */
  lemma StoreByteMeaning(mem: seq<byte>, insn: uint32, fun: uint32, a: uint32, rt: uint32)
    requires |mem| == MEM_SIZE
    ensures var r := Alu(insn, 0x28, fun, a, rt, LoadWord(mem, Aligned(a)));
            r.Some? && StoreWord(mem, Aligned(a), r.value) == mem[a := rt % 0x100]
  {
    hide And, Or, Xor, Pow2, Word, PutBE;
    var k, base, v := a % 4, a - a % 4, rt % 0x100;
    var b: Quad := mem[base..base + 4];
    ShiftedByte(0xFF, k);
    ShiftedByte(v, k);
    Complement(k, k + 1);
    var p: Quad := Patch(k, k + 1, v, 0);
    MaskAndMerge(b, p, k, k + 1);
    assert p[k..k + 1] == [v];
    StoreBytes(mem, base, b, [v], k);
    assert mem[..a] + [v] + mem[a + 1..] == mem[a := v];
  }

  function HalfAligned(a: uint32): (h: nat)
    ensures h + 2 <= MEM_SIZE
  {
    a / 2 * 2
  }

  /** sh changes the two bytes of the aligned halfword at its address, and nothing else. */
  lemma StoreHalfMeaning(mem: seq<byte>, insn: uint32, fun: uint32, a: uint32, rt: uint32)
    requires |mem| == MEM_SIZE
    ensures var r := Alu(insn, 0x29, fun, a, rt, LoadWord(mem, Aligned(a)));
            var h := HalfAligned(a);
            r.Some? && StoreWord(mem, Aligned(a), r.value) == mem[h := rt / 0x100 % 0x100][h + 1 := rt % 0x100]
  {
    hide And32, Or32, Xor32, Shl32, Word, StoreWord, Alu, HalfAligned;
    var e, base := a % 4 / 2 * 2, a - a % 4;
    var b: Quad := mem[base..base + 4];
    HalfAddress(a);
    HalfMerged(b, rt, e);
    StoreHalfResult(insn, fun, a, rt, Word(b));
    StoreBytes(mem, base, b, [rt / 0x100 % 0x100, rt % 0x100], e);
    TwoUpdates(mem, base + e, rt / 0x100 % 0x100, rt % 0x100);
  }

  lemma StoreHalfResult(insn: uint32, fun: uint32, a: uint32, rt: uint32, w: uint32)
    ensures var e := a % 4 / 2 * 2;
            e <= 2 && Alu(insn, 0x29, fun, a, rt, w) ==
            Some(Or32(And32(w, Xor32(0xFFFF_FFFF, Shl32(0xFFFF, 16 - 8 * e))), Shl32(rt % 0x1_0000, 16 - 8 * e)))
  {
    hide And32, Or32, Xor32, Shl32;
  }

  lemma HalfAddress(a: uint32)
    ensures a - a % 4 + a % 4 / 2 * 2 == HalfAligned(a) && a % 4 / 2 * 2 in {0, 2}
  {
    QuotientUnique(a, 2, 2 * (a / 4) + a % 4 / 2, a % 4 % 2);
  }

  lemma TwoUpdates(mem: seq<byte>, h: nat, x: byte, y: byte)
    requires h + 2 <= |mem|
    ensures mem[..h] + [x, y] + mem[h + 2..] == mem[h := x][h + 1 := y]
  {
  }

  lemma HalfMerged(b: Quad, rt: uint32, e: nat)
    requires e == 0 || e == 2
    ensures var hi: byte, lo: byte := rt / 0x100 % 0x100, rt % 0x100;
            Or32(And32(Word(b), Xor32(0xFFFF_FFFF, Shl32(0xFFFF, 16 - 8 * e))), Shl32(rt % 0x1_0000, 16 - 8 * e)) ==
            Word(b[..e] + [hi, lo] + b[e + 2..])
  {
    hide And32, Or32, Xor32, Shl32, Word;
    var hi: byte, lo: byte := rt / 0x100 % 0x100, rt % 0x100;
    ShiftedHalf(0xFF, 0xFF, e);
    ShiftedHalf(hi, lo, e);
    assert rt % 0x1_0000 == hi * 0x100 + lo;
    assert Patch(e, e + 2, 0xFF, 0) == if e == 0 then [0xFF, 0xFF, 0, 0] else [0, 0, 0xFF, 0xFF];
    Complement(e, e + 2);
    var v: Quad := if e == 0 then [hi, lo, 0, 0] else [0, 0, hi, lo];
    MaskAndMerge(b, v, e, e + 2);
    assert v[e..e + 2] == [hi, lo];
  }

  // ----- loads of a byte or a halfword -----

  /** Reading a digit of a number. */
  lemma Digit(x: nat, p: nat, n: nat, high: nat, d: nat, low: nat)
    requires p > 0 && low < p && d < n && x == (high * n + d) * p + low
    ensures x / p % n == d
  {
    QuotientUnique(x, p, high * n + d, low);
    RemainderUnique(high * n + d, n, high, d);
  }

  lemma ByteOf(b: Quad, k: nat)
    requires k < 4
    ensures Shr32(Word(b), 24 - 8 * k) % 0x100 == b[k]
  {
    hide Pow2, Word;
    BytePowers();
    WordOf(b);
    var b0: int, b1: int, b2: int, b3: int := b[0], b[1], b[2], b[3];
    if k == 0 {
      Digit(Word(b), 0x100_0000, 0x100, 0, b0, (b1 * 0x100 + b2) * 0x100 + b3);
    } else if k == 1 {
      Digit(Word(b), 0x1_0000, 0x100, b0, b1, b2 * 0x100 + b3);
    } else if k == 2 {
      Digit(Word(b), 0x100, 0x100, b0 * 0x100 + b1, b2, b3);
    } else {
      Digit(Word(b), 1, 0x100, (b0 * 0x100 + b1) * 0x100 + b2, b3, 0);
    }
  }

  lemma HalfOf(b: Quad, e: nat)
    requires e == 0 || e == 2
    ensures Shr32(Word(b), 16 - 8 * e) % 0x1_0000 == b[e] as int * 0x100 + b[e + 1]
  {
    hide Pow2, Word;
    BytePowers();
    WordOf(b);
    var b0: int, b1: int, b2: int, b3: int := b[0], b[1], b[2], b[3];
    if e == 0 {
      Digit(Word(b), 0x1_0000, 0x1_0000, 0, b0 * 0x100 + b1, b2 * 0x100 + b3);
    } else {
      Digit(Word(b), 1, 0x1_0000, b0 * 0x100 + b1, b2 * 0x100 + b3, 0);
    }
  }

  /** lbu and lb load the byte at their address, without and with its sign. */
  lemma LoadByteMeaning(mem: seq<byte>, insn: uint32, fun: uint32, a: uint32, rt: uint32)
    requires |mem| == MEM_SIZE
    ensures Alu(insn, 0x24, fun, a, rt, LoadWord(mem, Aligned(a))) == Some(mem[a])
    ensures Alu(insn, 0x20, fun, a, rt, LoadWord(mem, Aligned(a))) == Some(Signed(mem[a], 0x100))
  {
    hide Word, SignExtend, Shr32, Signed;
    ByteOf(mem[Aligned(a)..Aligned(a) + 4], a % 4);
    ExtendByte(mem[a]);
  }

  /** A number of the given size with its top bit taken as the sign. */
  function Signed(x: nat, size: nat): uint32 {
    Wrap32(if x >= size / 2 then x - size else x)
  }

  lemma ExtendByte(x: byte)
    ensures SignExtend(x, 8) == Signed(x, 0x100)
  {
    BytePowers();
    assert Pow2(7) == 0x80;
    hide SignExtend, Pow2;
    SignExtendCorrect(x, 8);
  }

  lemma ExtendHalf(x: uint32)
    requires x < 0x1_0000
    ensures SignExtend(x, 16) == Signed(x, 0x1_0000)
  {
    BytePowers();
    Pow2Sum(8, 7);
    assert Pow2(7) == 0x80;
    hide SignExtend, Pow2;
    SignExtendCorrect(x, 16);
  }

  /** lhu and lh load the aligned halfword at their address, without and with its sign. */
  lemma LoadHalfMeaning(mem: seq<byte>, insn: uint32, fun: uint32, a: uint32, rt: uint32)
    requires |mem| == MEM_SIZE
    ensures var h := HalfAligned(a);
            var x: uint32 := mem[h] as int * 0x100 + mem[h + 1];
            && Alu(insn, 0x25, fun, a, rt, LoadWord(mem, Aligned(a))) == Some(x)
            && Alu(insn, 0x21, fun, a, rt, LoadWord(mem, Aligned(a))) == Some(Signed(x, 0x1_0000))
  {
    hide Word, SignExtend, Shr32, Signed, HalfAligned;
    var h, e := HalfAligned(a), a % 4 / 2 * 2;
    HalfAddress(a);
    var b: Quad := mem[Aligned(a)..Aligned(a) + 4];
    assert b[e] == mem[h] && b[e + 1] == mem[h + 1];
    HalfOf(b, e);
    ExtendHalf(mem[h] as int * 0x100 + mem[h + 1]);
  }

  // ----- products and quotients -----

  lemma SplitProduct(x: int)
    ensures (Wrap32(x / 0x1_0000_0000) * 0x1_0000_0000 + Wrap32(x) - x) % 0x1_0000_0000_0000_0000 == 0
    ensures 0 <= x < 0x1_0000_0000_0000_0000 ==> Wrap32(x / 0x1_0000_0000) * 0x1_0000_0000 + Wrap32(x) == x
  {
    var q := x / 0x1_0000_0000;
    var t := q / 0x1_0000_0000;
    assert x == q * 0x1_0000_0000 + Wrap32(x) && q == t * 0x1_0000_0000 + Wrap32(q);
    RemainderUnique(-t * 0x1_0000_0000_0000_0000, 0x1_0000_0000_0000_0000, -t, 0);
  }

  /** mult and multu leave the whole product in hi and lo. */
  lemma MultMeaning(cpu: Cpu, rs: uint32, rt: uint32)
    ensures var c := HiLo(cpu, 0x18, rs, rt);
            c.Some? && (c.value.1.hi * 0x1_0000_0000 + c.value.1.lo - ToSigned(rs) * ToSigned(rt)) % 0x1_0000_0000_0000_0000 == 0
    ensures var c := HiLo(cpu, 0x19, rs, rt);
            c.Some? && c.value.1.hi * 0x1_0000_0000 + c.value.1.lo == rs * rt
  {
    hide Wrap32, ToSigned;
    SplitProduct(ToSigned(rs) * ToSigned(rt));
    MulMonotone(rs, 0xFFFF_FFFF, rt);
    MulMonotone(0, rs, rt);
    SplitProduct(rs * rt);
  }

  /** Division rounds towards zero, and the remainder has the sign of the dividend. */
  lemma QuotRem(a: int, b: int)
    requires b != 0
    ensures a == Quot(a, b) * b + Rem(a, b) && MipsSpec.Abs(Rem(a, b)) < MipsSpec.Abs(b)
    ensures Rem(a, b) == 0 || (Rem(a, b) < 0) == (a < 0)
    ensures MipsSpec.Abs(Quot(a, b)) <= MipsSpec.Abs(a)
    ensures Quot(a, b) == MipsSpec.Abs(a) && a < 0 ==> b == -1
  {
    hide Div;
    var x, y := MipsSpec.Abs(a), MipsSpec.Abs(b);
    var q := Div(x, y);
    DivFacts(x, y);
    SignedProducts(q, y);
    var m: int := q * y;
    assert b * Quot(a, b) == if a >= 0 then m else -m;
  }

  lemma DivFacts(x: nat, y: nat)
    requires y > 0
    ensures var q := Div(x, y); q * y <= x < q * y + y && q <= x && (q == x && x > 0 ==> y == 1)
  {
    var q := Div(x, y);
    DivMod(x, y, q);
    QuotientBelow(x, y);
    if y > 1 && x > 0 { SmallerQuotient(x, y, q); }
  }

  lemma SignedProducts(q: int, y: int)
    ensures y * q == q * y && y * (-q) == -(q * y) && (-y) * q == -(q * y) && (-y) * (-q) == q * y
    ensures (-q) * y == -(q * y) && q * (-y) == -(q * y) && (-q) * (-y) == q * y
  {
  }

  lemma SmallerQuotient(x: int, y: int, q: int)
    requires x > 0 && y > 1 && q >= 0 && q * y <= x
    ensures q < x
  {
    MulMonotone(2, y, q);
    assert q * y == y * q;
  }

  predicate FitsSigned(x: int) {
    -0x8000_0000 <= x < 0x8000_0000
  }

  lemma SignedWrap(x: int)
    ensures ToSigned(Wrap32(x)) == x <==> FitsSigned(x)
  {
  }

  /** div and divu leave quotient and remainder in lo and hi, and do not finish on a zero divisor. The one quotient
      that does not fit, of the least number by minus one, wraps around. */
  lemma DivMeaning(cpu: Cpu, rs: uint32, rt: uint32)
    ensures HiLo(cpu, 0x1A, rs, rt).None? <==> rt == 0
    ensures HiLo(cpu, 0x1B, rs, rt).None? <==> rt == 0
    ensures rt != 0 ==>
              var c := HiLo(cpu, 0x1B, rs, rt).value.1;
              rs == c.lo * rt + c.hi && c.hi < rt
    ensures rt != 0 ==>
              var a, b, c := ToSigned(rs), ToSigned(rt), HiLo(cpu, 0x1A, rs, rt).value.1;
              var q, r := ToSigned(c.lo), ToSigned(c.hi);
              && (a == q * b + r <==> !(a == -0x8000_0000 && b == -1))
              && MipsSpec.Abs(r) < MipsSpec.Abs(b) && (r == 0 || (r < 0) == (a < 0))
  {
    if rt != 0 {
      DivMod(rs, rt, rs / rt);
      QuotientBelow(rs, rt);
      var a, b := ToSigned(rs), ToSigned(rt);
      QuotRem(a, b);
      hide Quot, Rem;
      SignedWrap(Rem(a, b));
      if Quot(a, b) < 0x8000_0000 {
        SignedWrap(Quot(a, b));
      }
    }
  }

  // ----- sums, differences and products in one register -----

  lemma SignedSum(rs: uint32, rt: uint32)
    ensures Wrap32(rs as int + rt) == Wrap32(ToSigned(rs) + ToSigned(rt))
    ensures Wrap32(rs as int - rt) == Wrap32(ToSigned(rs) - ToSigned(rt))
  {
  }

  /** As signed numbers, add, sub and mul give the true sum, difference and product exactly if those fit in 32 bits; no
      overflow is ever trapped. */
  lemma ArithmeticMeaning(insn: uint32, rs: uint32, rt: uint32, mem: uint32)
    ensures forall fun :: fun in {0x20, 0x21} ==>
              var r, x := Alu(insn, 0, fun, rs, rt, mem), ToSigned(rs) + ToSigned(rt);
              r.Some? && (ToSigned(r.value) == x <==> FitsSigned(x))
    ensures forall fun :: fun in {0x22, 0x23} ==>
              var r, x := Alu(insn, 0, fun, rs, rt, mem), ToSigned(rs) - ToSigned(rt);
              r.Some? && (ToSigned(r.value) == x <==> FitsSigned(x))
    ensures var r, x := Alu(insn, 0x1C, 0x2, rs, rt, mem), ToSigned(rs) * ToSigned(rt);
            r.Some? && (ToSigned(r.value) == x <==> FitsSigned(x))
  {
    hide FitsSigned, ToSigned, Wrap32, SignExtend, Shr32, Shl32;
    SignedSum(rs, rt);
    SignedWrap(ToSigned(rs) + ToSigned(rt));
    SignedWrap(ToSigned(rs) - ToSigned(rt));
    SignedWrap(ToSigned(rs) * ToSigned(rt));
  }

  // ----- immediates, addresses and targets -----

  /** The 16-bit immediate as a signed number. */
  function Imm(insn: uint32): int {
    var i := insn % 0x1_0000;
    if i >= 0x8000 then i - 0x1_0000 else i
  }

  lemma SignedImmIs(insn: uint32)
    ensures SignedImm(insn) == Wrap32(Imm(insn))
  {
    hide SignExtend;
    ExtendHalf(insn % 0x1_0000);
  }

  lemma WrapSum(x: int, y: int)
    ensures Wrap32(x + Wrap32(y)) == Wrap32(x + y)
  {
  }

  /** Loads and stores address the base register plus the signed immediate. */
  lemma AddressMeaning(r: Registers, insn: uint32)
    ensures EffectiveAddress(r, insn) == Wrap32(r[RsField(insn)] + Imm(insn))
  {
    hide SignedImm, Imm;
    SignedImmIs(insn);
    WrapSum(r[RsField(insn)], Imm(insn));
  }

  /** What the immediate instructions compute from a register and the 16 bits. */
  lemma ImmediateMeaning(r: Registers, insn: uint32)
    ensures var op, rs, i, low := Opcode(insn), r[RsField(insn)], Imm(insn), insn % 0x1_0000;
            var a := Alu(insn, op, Fun(insn), rs, RtOperand(r, insn), 0);
            && (op in {0x8, 0x9} ==> a == Some(Wrap32(rs + i)))
            && (op == 0xA ==> a == Some(if ToSigned(rs) < i then 1 else 0))
            && (op == 0xB ==> a == Some(if rs < Wrap32(i) then 1 else 0))
            && (op == 0xC ==> a == Some(And32(rs, low)))
            && (op == 0xD ==> a == Some(Or32(rs, low)))
            && (op == 0xE ==> a == Some(Xor32(rs, low)))
            && (op == 0xF ==> a == Some(low * 0x1_0000))
  {
    hide SignedImm, And32, Or32, Xor32, Opcode, Fun, RsField, RtField, Shl32;
    SignedImmIs(insn);
    WrapSum(r[RsField(insn)], Imm(insn));
    if Opcode(insn) == 0xA { SignedWrap(Imm(insn)); }
    if Opcode(insn) == 0xF { HighHalf(insn); }
  }

  lemma HighHalf(insn: uint32)
    ensures Shl32(Wrap32(Imm(insn)), 16) == insn % 0x1_0000 * 0x1_0000
  {
    BytePowers();
    hide Pow2;
    var low := insn % 0x1_0000;
    assert Wrap32(Imm(insn)) == if low >= 0x8000 then low + 0xFFFF_0000 else low;
    if low >= 0x8000 {
      RemainderUnique((low + 0xFFFF_0000) * 0x1_0000, 0x1_0000_0000, 0xFFFF, low * 0x1_0000);
    } else {
      RemainderUnique(low * 0x1_0000, 0x1_0000_0000, 0, low * 0x1_0000);
    }
  }

  /** A jump keeps the upper four bits of the delay slot's successor and takes the other 28 from the instruction. */
  lemma JumpMeaning(nextPC: uint32, insn: uint32)
    ensures JumpTarget(nextPC, insn) == nextPC - nextPC % 0x1000_0000 + insn % 0x400_0000 * 4
  {
    BytePowers();
    Pow2Sum(24, 4);
    assert Pow2(4) == 16;
    hide Pow2, Or;
    OrDisjoint(nextPC / 0x1000_0000, 28, insn % 0x400_0000 * 4);
  }

  /** A branch continues, after its delay slot, four times the signed immediate past the delay slot, or right after it. */
  lemma BranchMeaning(v: Vm, insn: uint32, rs: uint32)
    requires Branch(v, insn, rs).Done?
    ensures var c := Branch(v, insn, rs).vm.cpu;
            c.pc == v.cpu.nextPC && v.cpu.nextPC == Wrap32(v.cpu.pc + 4) &&
            c.nextPC == Wrap32(v.cpu.pc + 4 + if Taken(v, insn, rs) then 4 * Imm(insn) else 4)
  {
    hide Taken, SignedImm, Shl32, Imm;
    SignedImmIs(insn);
    TimesFour(Imm(insn));
    WrapSum(v.cpu.pc + 4, 4 * Imm(insn));
    WrapSum(4, v.cpu.pc + 4);
  }

  lemma TimesFour(x: int)
    ensures Shl32(Wrap32(x), 2) == Wrap32(4 * x)
  {
    assert Pow2(2) == 4;
  }

  // ----- system calls on memory -----

  /** A preimage read writes the bytes it delivers at its address, and changes nothing else. */
  lemma ReadWritesBytes(mem: seq<byte>, addr: uint32, d: seq<byte>)
    requires |mem| == MEM_SIZE && addr % 4 + |d| <= 4
    ensures addr + |d| <= MEM_SIZE
    ensures StoreWord(mem, Aligned(addr), Word(Overwrite(mem[Aligned(addr)..Aligned(addr) + 4], addr % 4, d))) ==
            mem[..addr] + d + mem[addr + |d|..]
  {
    hide Word, StoreWord;
    StoreBytes(mem, Aligned(addr), mem[Aligned(addr)..Aligned(addr) + 4], d, addr % 4);
  }

  /** Without an address hint, mmap returns the old end of the heap and moves it up by the length rounded up to whole
      pages; with one it returns the hint and keeps the heap. */
  lemma MmapMeaning(a0: uint32, a1: uint32, heap: uint32)
    ensures var (v0, heap') := Mmap(a0, a1, heap);
            if a0 != 0 then v0 == a0 && heap' == heap
            else v0 == heap && heap' == Wrap32(heap + (a1 + 4095) / 4096 * 4096)
  {
    var sz: int := (a1 + 4095) / 4096 * 4096;
    RoundUp(a1);
    WrapSum(heap, sz);
  }

  lemma RoundUp(n: nat)
    ensures (n + 4095) / 4096 * 4096 == if n % 4096 == 0 then n else n + (4096 - n % 4096)
  {
    if n % 4096 == 0 {
      QuotientUnique(n + 4095, 4096, n / 4096, 4095);
    } else {
      QuotientUnique(n + 4095, 4096, n / 4096 + 1, n % 4096 - 1);
    }
  }
}
