/** Unaligned loads and stores: what lwl, lwr, swl and swr do to the bytes of memory,
    as the LWL, LWR, SWL and SWR entries of the MIPS32 manual describe them. */
module MipsUnaligned {
  import opened Words
  import opened Arithmetic
  import opened Bits
  import opened MipsAlu
  import opened MipsSpec
  import opened MemoryTree

  // ----- the two merges -----

  function MergeLeft(t: nat, x: uint32, y: uint32): uint32 {
    Or32(And32(y, Not32(Shl32(0xFFFF_FFFF, t))), Shl32(x, t))
  }

  function MergeRight(t: nat, x: uint32, y: uint32): uint32 {
    Or32(And32(y, Not32(Shr32(0xFFFF_FFFF, t))), Shr32(x, t))
  }

  lemma ModScale(x: nat, m: nat, p: nat)
    requires m > 0 && p > 0
    ensures m * p > 0 && (x * p) % (m * p) == (x % m) * p
  {
    var q := x / m;
    DivMod(x, m, q);
    MulMonotone(1, m, p);
    assert x * p == q * (m * p) + (x % m) * p by {
      assert (q * m + x % m) * p == (q * m) * p + (x % m) * p;
      assert (q * m) * p == q * (m * p);
    }
    assert 0 <= (x % m) * p < m * p by {
      MulMonotone(0, x % m, p);
      MulMonotone(x % m, m - 1, p);
      MulPred(m, p);
    }
    RemainderUnique(x * p, m * p, q, (x % m) * p);
  }

  lemma LeftMask(t: nat)
    requires t <= 32
    ensures 1 <= Pow2(t) <= 0x1_0000_0000 && Not32(Shl32(0xFFFF_FFFF, t)) == Pow2(t) - 1
  {
    var p, m := Pow2(t), Pow2(32 - t);
    ShlOnes(32 - t, t);
    ModScale(0xFFFF_FFFF, m, p);
    assert p * m == 0x1_0000_0000;
    MulPred(p, m);
    RemainderUnique(0xFFFF_FFFF, m, p - 1, m - 1);
    MulPred(m, p);
  }

  lemma LeftShift(x: uint32, t: nat)
    requires t <= 32
    ensures Shl32(x, t) == (x % Pow2(32 - t)) * Pow2(t)
  {
    ShlOnes(32 - t, t);
    ModScale(x, Pow2(32 - t), Pow2(t));
  }

  /** Shifting left drops the high bits of x and keeps the low bits of y. */
  lemma MergeLeftParts(t: nat, x: uint32, y: uint32)
    requires t <= 32
    ensures MergeLeft(t, x, y) == (x % Pow2(32 - t)) * Pow2(t) + y % Pow2(t)
  {
    LeftMask(t);
    LeftShift(x, t);
    AndLowMask(y, t);
    OrCommutes((x % Pow2(32 - t)) * Pow2(t), y % Pow2(t));
    OrDisjoint(x % Pow2(32 - t), t, y % Pow2(t));
  }

  lemma RightMask(t: nat)
    requires t <= 32
    ensures 1 <= Pow2(32 - t) <= 0x1_0000_0000
    ensures Not32(Shr32(0xFFFF_FFFF, t)) == 0x1_0000_0000 - Pow2(32 - t)
  {
    var p, m := Pow2(t), Pow2(32 - t);
    ShlOnes(32 - t, t);
    MulPred(m, p);
    RemainderUnique(0xFFFF_FFFF, p, m - 1, p - 1);
  }

  lemma OrJoin(c: nat, s: nat, y: nat)
    requires c * Pow2(s) < MEM_SIZE && y < Pow2(s) <= MEM_SIZE
    ensures Or32(c * Pow2(s), y) == c * Pow2(s) + y
  {
    OrDisjoint(c, s, y);
  }

  lemma HighBits(y: uint32, s: nat)
    requires s <= 32
    ensures 1 <= Pow2(s) <= MEM_SIZE && 0 <= (y / Pow2(s)) * Pow2(s) <= y
    ensures And32(y, MEM_SIZE - Pow2(s)) == (y / Pow2(s)) * Pow2(s)
  {
    Pow2Of32();
    Pow2Monotone(s, 32);
    AndHighMask(y, s, 32);
    DivMod(y, Pow2(s), y / Pow2(s));
  }

  /** Shifting right drops the low bits of x and keeps the high bits of y. */
  lemma MergeRightParts(t: nat, x: uint32, y: uint32)
    requires t <= 32
    ensures MergeRight(t, x, y) == (y / Pow2(32 - t)) * Pow2(32 - t) + x / Pow2(t)
  {
    hide Pow2, Or32, And32;
    RightMask(t);
    HighBits(y, 32 - t);
    ShlOnes(32 - t, t);
    QuotientBound(x, Pow2(t), Pow2(32 - t));
    OrJoin(y / Pow2(32 - t), 32 - t, x / Pow2(t));
  }

  /** In bytes: the low bytes of x followed by the low bytes of y. */
  lemma MergeLeftBytes(k: nat, x: seq<byte>, y: seq<byte>)
    requires k <= 3 && |x| == |y| == 4
    ensures MergeLeft(8 * k, Word(x), Word(y)) == Word(x[k..] + y[4 - k..])
  {
    MergeLeftParts(8 * k, Word(x), Word(y));
    Pow256IsPow2(k);
    Pow256IsPow2(4 - k);
    SplitBE(x, k);
    SplitBE(y, 4 - k);
    ConcatBE(x[k..], y[4 - k..]);
  }

  /** In bytes: the high bytes of y followed by the high bytes of x. */
  lemma MergeRightBytes(k: nat, x: seq<byte>, y: seq<byte>)
    requires k <= 3 && |x| == |y| == 4
    ensures MergeRight(8 * k, Word(x), Word(y)) == Word(y[..k] + x[..4 - k])
  {
    MergeRightParts(8 * k, Word(x), Word(y));
    Pow256IsPow2(k);
    Pow256IsPow2(4 - k);
    SplitBE(x, 4 - k);
    SplitBE(y, k);
    ConcatBE(y[..k], x[..4 - k]);
  }

  lemma Merges(rs: uint32, x: uint32, y: uint32)
    ensures Lwl(rs, x, y) == MergeLeft(8 * (rs % 4), y, x)
    ensures Swr(rs, x, y) == MergeLeft(8 * (3 - rs % 4), x, y)
    ensures Lwr(rs, x, y) == MergeRight(8 * (3 - rs % 4), y, x)
    ensures Swl(rs, x, y) == MergeRight(8 * (rs % 4), x, y)
  {
  }

  // ----- bytes in memory -----

  /** swl at address `a`: load the word around it, merge, store. */
  function StoreLeft(mem: seq<byte>, a: uint32, v: uint32): (mem': seq<byte>)
    requires |mem| == MEM_SIZE
    ensures |mem'| == MEM_SIZE
  {
    StoreWord(mem, a - a % 4, Swl(a, v, LoadWord(mem, a - a % 4)))
  }

  function StoreRight(mem: seq<byte>, a: uint32, v: uint32): (mem': seq<byte>)
    requires |mem| == MEM_SIZE
    ensures |mem'| == MEM_SIZE
  {
    StoreWord(mem, a - a % 4, Swr(a, v, LoadWord(mem, a - a % 4)))
  }

  function LoadLeft(mem: seq<byte>, a: uint32, rt: uint32): uint32
    requires |mem| == MEM_SIZE
  {
    Lwl(a, rt, LoadWord(mem, a - a % 4))
  }

  function LoadRight(mem: seq<byte>, a: uint32, rt: uint32): uint32
    requires |mem| == MEM_SIZE
  {
    Lwr(a, rt, LoadWord(mem, a - a % 4))
  }

  lemma WordOfBytes(v: uint32, b: seq<byte>)
    requires |b| == 4 && v == Word(b)
    ensures PutBE(v, 4) == b
  {
    PutGet(b);
  }

  lemma SwlBytes(a: uint32, v: uint32, y: seq<byte>)
    requires |y| == 4
    ensures PutBE(Swl(a, v, Word(y)), 4) == y[..a % 4] + PutBE(v, 4)[..4 - a % 4]
  {
    WordRoundTrip(v);
    Merges(a, v, Word(y));
    MergeRightBytes(a % 4, PutBE(v, 4), y);
    WordOfBytes(Swl(a, v, Word(y)), y[..a % 4] + PutBE(v, 4)[..4 - a % 4]);
  }

  lemma SwrBytes(a: uint32, v: uint32, y: seq<byte>)
    requires |y| == 4
    ensures PutBE(Swr(a, v, Word(y)), 4) == PutBE(v, 4)[3 - a % 4..] + y[a % 4 + 1..]
  {
    var k := 3 - a % 4;
    WordRoundTrip(v);
    Merges(a, v, Word(y));
    MergeLeftBytes(k, PutBE(v, 4), y);
    WordOfBytes(Swr(a, v, Word(y)), PutBE(v, 4)[k..] + y[4 - k..]);
  }

  lemma ReplaceTail(mem: seq<byte>, base: nat, k: nat, z: seq<byte>)
    requires base + 4 <= |mem| && k <= 4 && |z| == 4 - k
    ensures mem[..base] + (mem[base..base + 4][..k] + z) + mem[base + 4..] == mem[..base + k] + z + mem[base + 4..]
  {
    assert mem[..base] + mem[base..base + 4][..k] == mem[..base + k];
  }

  lemma ReplaceHead(mem: seq<byte>, base: nat, k: nat, z: seq<byte>)
    requires base + 4 <= |mem| && k <= 4 && |z| == k
    ensures mem[..base] + (z + mem[base..base + 4][k..]) + mem[base + 4..] == mem[..base] + z + mem[base + k..]
  {
    assert mem[base..base + 4][k..] + mem[base + 4..] == mem[base + k..];
  }

  /** swl writes the leading bytes of the register from `a` to the end of its word. */
  lemma StoreLeftBytes(mem: seq<byte>, a: uint32, v: uint32)
    requires |mem| == MEM_SIZE
    ensures StoreLeft(mem, a, v) == mem[..a] + PutBE(v, 4)[..4 - a % 4] + mem[a - a % 4 + 4..]
  {
    hide PutBE, Swl, Word;
    var r := a % 4;
    var base, z := a - r, PutBE(v, 4)[..4 - r];
    SwlBytes(a, v, mem[base..base + 4]);
    ReplaceTail(mem, base, r, z);
    assert StoreLeft(mem, a, v) == mem[..base] + (mem[base..base + 4][..r] + z) + mem[base + 4..];
  }

  /** swr writes the trailing bytes of the register from the start of the word up to `a`. */
  lemma StoreRightBytes(mem: seq<byte>, a: uint32, v: uint32)
    requires |mem| == MEM_SIZE
    ensures StoreRight(mem, a, v) == mem[..a - a % 4] + PutBE(v, 4)[3 - a % 4..] + mem[a + 1..]
  {
    hide PutBE, Swr, Word;
    var r := a % 4;
    var base, z := a - r, PutBE(v, 4)[3 - r..];
    SwrBytes(a, v, mem[base..base + 4]);
    ReplaceHead(mem, base, r + 1, z);
    assert StoreRight(mem, a, v) == mem[..base] + (z + mem[base..base + 4][r + 1..]) + mem[base + 4..];
  }

  lemma WrapSub(j: uint32, a: uint32)
    ensures Wrap32(j - a) == if j >= a then j - a else j - a + MEM_SIZE
  {
  }

  lemma WrapAdd(a: uint32, i: uint32)
    requires i < 4
    ensures Wrap32(a + i) == if a + i < MEM_SIZE then a + i else a + i - MEM_SIZE
    ensures Wrap32(Wrap32(a + i) - a) == i
  {
  }

  /** Where the last of four bytes from `a` on lies: in the same word, or in the next one,
      which is the first one at the end of the address space. */
  ghost predicate LastByte(a: int, k: int, b: int, l: int) {
    || (k == 0 && b == a + 3 && l == 3)
    || (0 < k < 4 && l == k - 1 && b == a + 3 && b < MEM_SIZE)
    || (0 < k < 4 && l == k - 1 && b == a + 3 - MEM_SIZE && a - k + 4 == MEM_SIZE)
  }

  lemma LastByteOf(a: uint32)
    ensures LastByte(a, a % 4, Wrap32(a + 3), Wrap32(a + 3) % 4)
  {
    WrapAdd(a, 3);
  }

  /** The two partial writes together, byte by byte. */
  lemma TwoWrites(mem: seq<byte>, mid: seq<byte>, fin: seq<byte>, a: uint32, k: nat, b: uint32, l: nat, x: seq<byte>,
                  j: uint32)
    requires |mem| == |mid| == |fin| == MEM_SIZE && |x| == 4
    requires k <= 3 && k <= a && a - k + 4 <= MEM_SIZE && l <= 3 && l <= b && LastByte(a, k, b, l)
    requires mid == mem[..a] + x[..4 - k] + mem[a - k + 4..]
    requires fin == mid[..b - l] + x[3 - l..] + mid[b + 1..]
    ensures fin[j] == var d := if j >= a then j - a else j - a + MEM_SIZE; if d < 4 then x[d] else mem[j]
  {
    assert mid[j] == if a <= j < a - k + 4 then x[j - a] else mem[j];
    assert fin[j] == if b - l <= j <= b then x[j - b + 3] else mid[j];
  }

  /** swl at `a` followed by swr at `a + 3` writes the register to the four bytes from `a` on,
      wherever they lie, and no other byte. */
  lemma PairStores(mem: seq<byte>, a: uint32, v: uint32, j: uint32)
    requires |mem| == MEM_SIZE
    ensures StoreRight(StoreLeft(mem, a, v), Wrap32(a + 3), v)[j]
         == if Wrap32(j - a) < 4 then PutBE(v, 4)[Wrap32(j - a)] else mem[j]
  {
    var mid := StoreLeft(mem, a, v);
    StoreLeftBytes(mem, a, v);
    StoreRightBytes(mid, Wrap32(a + 3), v);
    LastByteOf(a);
    WrapSub(j, a);
    var b := Wrap32(a + 3);
    TwoWrites(mem, mid, StoreRight(mid, b, v), a, a % 4, b, b % 4, PutBE(v, 4), j);
  }

  /** The four bytes from `a` on, wrapping around the address space. */
  function BytesAt(mem: seq<byte>, a: uint32): (b: seq<byte>)
    requires |mem| == MEM_SIZE
    ensures |b| == 4
  {
    [mem[a], mem[Wrap32(a + 1)], mem[Wrap32(a + 2)], mem[Wrap32(a + 3)]]
  }

  lemma LwlBytes(a: uint32, rt: uint32, x: seq<byte>)
    requires |x| == 4
    ensures Lwl(a, rt, Word(x)) == Word(x[a % 4..] + PutBE(rt, 4)[4 - a % 4..])
  {
    WordRoundTrip(rt);
    Merges(a, rt, Word(x));
    MergeLeftBytes(a % 4, x, PutBE(rt, 4));
  }

  lemma LwrBytes(a: uint32, l: seq<byte>, y: seq<byte>)
    requires |l| == |y| == 4
    ensures Lwr(a, Word(l), Word(y)) == Word(l[..3 - a % 4] + y[..a % 4 + 1])
  {
    var k := 3 - a % 4;
    Merges(a, Word(l), Word(y));
    MergeRightBytes(k, y, l);
    assert y[..4 - k] == y[..a % 4 + 1];
  }

  lemma TwoReads(mem: seq<byte>, a: uint32, k: nat, b: uint32, l: nat, r: seq<byte>)
    requires |mem| == MEM_SIZE && |r| == k
    requires k <= 3 && k <= a && a - k + 4 <= MEM_SIZE && l <= 3 && l <= b && LastByte(a, k, b, l)
    ensures (mem[a..a - k + 4] + r)[..3 - l] + mem[b - l..b + 1] == BytesAt(mem, a)
  {
    WrapAdd(a, 1);
    WrapAdd(a, 2);
    WrapAdd(a, 3);
  }

  lemma LoadLeftBytes(mem: seq<byte>, a: uint32, rt: uint32)
    requires |mem| == MEM_SIZE
    ensures LoadLeft(mem, a, rt) == Word(mem[a..a - a % 4 + 4] + PutBE(rt, 4)[4 - a % 4..])
  {
    var x := mem[a - a % 4..a - a % 4 + 4];
    LwlBytes(a, rt, x);
    assert x[a % 4..] == mem[a..a - a % 4 + 4];
  }

  lemma LoadRightBytes(mem: seq<byte>, b: uint32, l: seq<byte>)
    requires |mem| == MEM_SIZE && |l| == 4
    ensures LoadRight(mem, b, Word(l)) == Word(l[..3 - b % 4] + mem[b - b % 4..b + 1])
  {
    var y := mem[b - b % 4..b - b % 4 + 4];
    LwrBytes(b, l, y);
    assert y[..b % 4 + 1] == mem[b - b % 4..b + 1];
  }

  /** lwl at `a` followed by lwr at `a + 3` reads them back, whatever the register held. */
  lemma PairLoads(mem: seq<byte>, a: uint32, rt: uint32)
    requires |mem| == MEM_SIZE
    ensures LoadRight(mem, Wrap32(a + 3), LoadLeft(mem, a, rt)) == Word(BytesAt(mem, a))
  {
    hide LoadLeft, LoadRight;
    var b, r := Wrap32(a + 3), PutBE(rt, 4)[4 - a % 4..];
    LoadLeftBytes(mem, a, rt);
    LoadRightBytes(mem, b, mem[a..a - a % 4 + 4] + r);
    LastByteOf(a);
    TwoReads(mem, a, a % 4, b, b % 4, r);
  }

  // ----- as instructions -----

  /** The four instructions are these accesses at the effective address, on the register named by rt. */
  lemma PartialAccessSteps(v: Vm, insn: uint32)
    requires Wf(v)
    ensures var a, rt := EffectiveAddress(v.registers, insn), RtField(insn);
            var next, x := v.(cpu := Advance(v.cpu)), v.registers[rt];
            && (Opcode(insn) == 0x2A ==> CoreStep(v, insn) == Done(next.(mem := StoreLeft(v.mem, a, x)), []))
            && (Opcode(insn) == 0x2E ==> CoreStep(v, insn) == Done(next.(mem := StoreRight(v.mem, a, x)), []))
            && (Opcode(insn) == 0x22 ==>
                  CoreStep(v, insn) == Done(next.(registers := SetRegister(v.registers, rt, LoadLeft(v.mem, a, x))), []))
            && (Opcode(insn) == 0x26 ==>
                  CoreStep(v, insn) == Done(next.(registers := SetRegister(v.registers, rt, LoadRight(v.mem, a, x))), []))
  {
    hide LoadWord, StoreWord, EffectiveAddress, Swl, Swr, Lwl, Lwr, Advance;
  }

  /** Both are on the same register, and `second`, when its turn comes, is at the last of the four bytes that `first` is at
      the first of. */
  predicate Pair(v: Vm, first: uint32, second: uint32)
    requires Wf(v)
  {
    RtField(first) == RtField(second) &&
    match CoreStep(v, first)
    case Panic => false
    case Done(w, _) => EffectiveAddress(w.registers, second) == Wrap32(EffectiveAddress(v.registers, first) + 3)
  }

  /** It is enough to look at the registers before both, unless the first loads the base of the second. */
  lemma PairFromStart(v: Vm, first: uint32, second: uint32)
    requires Wf(v) && Opcode(first) in {0x2A, 0x22} && RtField(first) == RtField(second)
    requires Opcode(first) == 0x22 ==> RsField(second) != RtField(first) || RtField(first) == 0
    ensures Pair(v, first, second) <==>
            EffectiveAddress(v.registers, second) == Wrap32(EffectiveAddress(v.registers, first) + 3)
  {
    hide LoadLeft, StoreLeft, CoreStep, Opcode, RtField, RsField, Advance, SignedImm;
    PartialAccessSteps(v, first);
  }

  /** Two steps, the second from where the first ends. */
  function TwoSteps(v: Vm, first: uint32, second: uint32): Outcome
    requires Wf(v)
  {
    match CoreStep(v, first)
    case Panic => Panic
    case Done(w, _) => if Wf(w) then CoreStep(w, second) else Panic
  }

  /** swl and then swr: the register is written to the four bytes from the address of swl on, wherever they lie, and
      nothing else changes but the program counter. */
  lemma UnalignedStore(v: Vm, swl: uint32, swr: uint32)
    requires Wf(v) && Opcode(swl) == 0x2A && Opcode(swr) == 0x2E && Pair(v, swl, swr)
    ensures var o := TwoSteps(v, swl, swr);
            && o.Done? && o.hints == [] && Wf(o.vm) && o.vm == v.(mem := o.vm.mem, cpu := Advance(Advance(v.cpu)))
            && Overwritten(v.mem, EffectiveAddress(v.registers, swl), PutBE(v.registers[RtField(swl)], 4), o.vm.mem)
  {
    hide StoreLeft, StoreRight, EffectiveAddress, CoreStep, Opcode, RtField, PutBE, Advance, Overwritten;
    PartialAccessSteps(v, swl);
    PartialAccessSteps(CoreStep(v, swl).vm, swr);
    PairOverwrites(v.mem, EffectiveAddress(v.registers, swl), v.registers[RtField(swl)]);
  }

  /** `mem'` is `mem` with the four bytes from `a` on, around the end of the address space, replaced by `x`. */
  ghost predicate Overwritten(mem: seq<byte>, a: uint32, x: seq<byte>, mem': seq<byte>) {
    |mem| == |mem'| == MEM_SIZE && |x| == 4 &&
    forall j: uint32 :: mem'[j] == if Wrap32(j - a) < 4 then x[Wrap32(j - a)] else mem[j]
  }

  lemma PairOverwrites(mem: seq<byte>, a: uint32, v: uint32)
    requires |mem| == MEM_SIZE
    ensures Overwritten(mem, a, PutBE(v, 4), StoreRight(StoreLeft(mem, a, v), Wrap32(a + 3), v))
  {
    hide StoreLeft, StoreRight, PutBE;
    var fin := StoreRight(StoreLeft(mem, a, v), Wrap32(a + 3), v);
    forall j: uint32 ensures fin[j] == if Wrap32(j - a) < 4 then PutBE(v, 4)[Wrap32(j - a)] else mem[j] {
      PairStores(mem, a, v, j);
    }
  }

  /** lwl and then lwr: the register gets the four bytes from the address of lwl on, whatever it held, exactly if it is
      not register 0, unless that holds these bytes anyway. */
  lemma UnalignedLoad(v: Vm, lwl: uint32, lwr: uint32)
    requires Wf(v) && Opcode(lwl) == 0x22 && Opcode(lwr) == 0x26 && Pair(v, lwl, lwr)
    ensures var o, rt := TwoSteps(v, lwl, lwr), RtField(lwl);
            var x := Word(BytesAt(v.mem, EffectiveAddress(v.registers, lwl)));
            && o == Done(v.(registers := SetRegister(v.registers, rt, x), cpu := Advance(Advance(v.cpu))), [])
            && (o.vm.registers[rt] == x <==> rt != 0 || v.registers[0] == x)
  {
    hide LoadLeft, LoadRight, CoreStep, Opcode, RtField, EffectiveAddress, BytesAt, Word, Advance;
    var a, x := EffectiveAddress(v.registers, lwl), v.registers[RtField(lwl)];
    PartialAccessSteps(v, lwl);
    PartialAccessSteps(CoreStep(v, lwl).vm, lwr);
    PairLoads(v.mem, a, x);
  }

  /** What swl and swr write, lwl and lwr at the same address read back into any register but 0. */
  lemma UnalignedRoundTrip(v: Vm, swl: uint32, swr: uint32, lwl: uint32, lwr: uint32)
    requires Wf(v) && Opcode(swl) == 0x2A && Opcode(swr) == 0x2E && Pair(v, swl, swr)
    requires Opcode(lwl) == 0x22 && Opcode(lwr) == 0x26
    requires var o := TwoSteps(v, swl, swr); o.Done? && Wf(o.vm) ==> Pair(o.vm, lwl, lwr)
    requires EffectiveAddress(v.registers, lwl) == EffectiveAddress(v.registers, swl)
    ensures var o := TwoSteps(v, swl, swr);
            && o.Done? && Wf(o.vm)
            && (var p := TwoSteps(o.vm, lwl, lwr);
                p.Done? && p.vm.mem == o.vm.mem &&
                p.vm.registers == SetRegister(v.registers, RtField(lwl), v.registers[RtField(swl)]))
  {
    hide TwoSteps, EffectiveAddress, Opcode, RtField, PutBE, Word, Overwritten, BytesAt, Pair;
    UnalignedStore(v, swl, swr);
    var o, a, x := TwoSteps(v, swl, swr), EffectiveAddress(v.registers, swl), v.registers[RtField(swl)];
    UnalignedLoad(o.vm, lwl, lwr);
    OverwrittenBytes(v.mem, a, PutBE(x, 4), o.vm.mem);
    WordRoundTrip(x);
  }

  lemma OverwrittenBytes(mem: seq<byte>, a: uint32, x: seq<byte>, mem': seq<byte>)
    requires Overwritten(mem, a, x, mem')
    ensures BytesAt(mem', a) == x
  {
    WrapAdd(a, 0);
    WrapAdd(a, 1);
    WrapAdd(a, 2);
    WrapAdd(a, 3);
  }
}
