/** The value part of the MIPS instruction set: sign extension, shifts, the ALU and the
    merging of unaligned words (cannon/mipsevm/mips_instructions.go). */
module MipsAlu {
  import opened Words
  import opened Arithmetic
  import opened Bits

  /** The signed number a word denotes. */
  function ToSigned(x: uint32): int {
    if x >= 0x8000_0000 then x - 0x1_0000_0000 else x
  }

  function SignExtend(dat: uint32, idx: uint32): uint32 {
    var isSigned := Shr32(dat, Wrap32(idx - 1)) != 0;
    var signed := Shl32(Wrap32(Shl32(1, Wrap32(32 - idx)) - 1), idx);
    var mask := Wrap32(Shl32(1, idx) - 1);
    if isSigned then Or32(And32(dat, mask), signed) else And32(dat, mask)
  }

  /** The number of leading one bits: what the complement leaves of the 32 bits. */
  function LeadingOnes(x: uint32): (n: nat)
    ensures n <= 32
  {
    Pow2Of32();
    BitLenAtMost(Not32(x), 32);
    32 - BitLen(Not32(x))
  }

  /** The arithmetic immediates are executed as the register instructions they abbreviate. */
  function EffectiveFun(opcode: uint32, fun: uint32): uint32 {
    match opcode
    case 0x8 => 0x20
    case 0x9 => 0x21
    case 0xA => 0x2A
    case 0xB => 0x2B
    case 0xC => 0x24
    case 0xD => 0x25
    case 0xE => 0x26
    case _ => fun
  }

  function Srav(rs: uint32, rt: uint32): uint32 {
    SignExtend(Shr32(rt, rs), Wrap32(32 - rs))
  }

  function AluSpecial(insn: uint32, fun: uint32, rs: uint32, rt: uint32): Option<uint32> {
    var shamt := insn / 0x40 % 0x20;
    match fun
    case 0x00 => Some(Shl32(rt, shamt))                            // sll
    case 0x02 => Some(Shr32(rt, shamt))                            // srl
    case 0x03 => Some(SignExtend(Shr32(rt, shamt), 32 - shamt))    // sra
    case 0x04 => Some(Shl32(rt, rs % 0x20))                        // sllv
    case 0x06 => Some(Shr32(rt, rs % 0x20))                        // srlv
    case 0x07 => Some(Srav(rs, rt))
    // jr, jalr, movz, movn, syscall, sync and the hi/lo group pass rs through
    case 0x08 => Some(rs)
    case 0x09 => Some(rs)
    case 0x0A => Some(rs)
    case 0x0B => Some(rs)
    case 0x0C => Some(rs)
    case 0x0F => Some(rs)
    case 0x10 => Some(rs)
    case 0x11 => Some(rs)
    case 0x12 => Some(rs)
    case 0x13 => Some(rs)
    case 0x18 => Some(rs)
    case 0x19 => Some(rs)
    case 0x1A => Some(rs)
    case 0x1B => Some(rs)
    case 0x20 => Some(Wrap32(rs + rt))                             // add
    case 0x21 => Some(Wrap32(rs + rt))                             // addu
    case 0x22 => Some(Wrap32(rs - rt))                             // sub
    case 0x23 => Some(Wrap32(rs - rt))                             // subu
    case 0x24 => Some(And32(rs, rt))                               // and
    case 0x25 => Some(Or32(rs, rt))                                // or
    case 0x26 => Some(Xor32(rs, rt))                               // xor
    case 0x27 => Some(Not32(Or32(rs, rt)))                         // nor
    case 0x2A => Some(if ToSigned(rs) < ToSigned(rt) then 1 else 0) // slt
    case 0x2B => Some(if rs < rt then 1 else 0)                    // sltu
    case _ => None
  }

  function Lwl(rs: uint32, rt: uint32, mem: uint32): uint32 {
    var shift := rs % 4 * 8;
    Or32(And32(rt, Not32(Shl32(0xFFFF_FFFF, shift))), Shl32(mem, shift))
  }

  function Lwr(rs: uint32, rt: uint32, mem: uint32): uint32 {
    var shift := 24 - rs % 4 * 8;
    Or32(And32(rt, Not32(Shr32(0xFFFF_FFFF, shift))), Shr32(mem, shift))
  }

  function Swl(rs: uint32, rt: uint32, mem: uint32): uint32 {
    var shift := rs % 4 * 8;
    Or32(And32(mem, Not32(Shr32(0xFFFF_FFFF, shift))), Shr32(rt, shift))
  }

  function Swr(rs: uint32, rt: uint32, mem: uint32): uint32 {
    var shift := 24 - rs % 4 * 8;
    Or32(And32(mem, Not32(Shl32(0xFFFF_FFFF, shift))), Shl32(rt, shift))
  }

  /** The result of an instruction, or None where the source panics with "invalid instruction". */
  function Alu(insn: uint32, opcode: uint32, fun: uint32, rs: uint32, rt: uint32, mem: uint32): Option<uint32> {
    if opcode == 0 || 8 <= opcode < 0xF then AluSpecial(insn, EffectiveFun(opcode, fun), rs, rt)
    else
      match opcode
      case 0x1C =>
        if fun == 0x02 then Some(Wrap32(ToSigned(rs) * ToSigned(rt)))  // mul
        else if fun == 0x20 then Some(LeadingOnes(Not32(rs)))          // clz
        else if fun == 0x21 then Some(LeadingOnes(rs))                 // clo
        else None
      case 0x0F => Some(Shl32(rt, 16))                                                            // lui
      case 0x20 => Some(SignExtend(Shr32(mem, 24 - rs % 4 * 8) % 0x100, 8))                       // lb
      case 0x21 => Some(SignExtend(Shr32(mem, 16 - rs % 4 / 2 * 2 * 8) % 0x1_0000, 16))           // lh
      case 0x22 => Some(Lwl(rs, rt, mem))
      case 0x23 => Some(mem)                                                                      // lw
      case 0x24 => Some(Shr32(mem, 24 - rs % 4 * 8) % 0x100)                                      // lbu
      case 0x25 => Some(Shr32(mem, 16 - rs % 4 / 2 * 2 * 8) % 0x1_0000)                           // lhu
      case 0x26 => Some(Lwr(rs, rt, mem))
      case 0x28 =>                                                                                // sb
        var shift := 24 - rs % 4 * 8;
        Some(Or32(And32(mem, Xor32(0xFFFF_FFFF, Shl32(0xFF, shift))), Shl32(rt % 0x100, shift)))
      case 0x29 =>                                                                                // sh
        var shift := 16 - rs % 4 / 2 * 2 * 8;
        Some(Or32(And32(mem, Xor32(0xFFFF_FFFF, Shl32(0xFFFF, shift))), Shl32(rt % 0x1_0000, shift)))
      case 0x2A => Some(Swl(rs, rt, mem))
      case 0x2B => Some(rt)                                                                       // sw
      case 0x2E => Some(Swr(rs, rt, mem))
      case 0x30 => Some(mem)                                                                      // ll
      case 0x38 => Some(rt)                                                                       // sc
      case _ => None
  }

  // ----- sign extension and arithmetic shifts -----

  lemma ShlOne(n: nat)
    requires n <= 32
    ensures Shl32(1, n) == (if n == 32 then 0 else Pow2(n)) && (n < 32 ==> Pow2(n) < 0x1_0000_0000)
  {
    Pow2Of32();
    if n < 32 {
      Pow2Monotone(n + 1, 32);
    }
  }

  lemma Wrap32Id(x: int)
    requires 0 <= x < 0x1_0000_0000
    ensures Wrap32(x) == x
  {
  }

  lemma MulPred(a: int, b: int)
    ensures (a - 1) * b == a * b - b
  {
  }

  lemma ShlOnes(n: nat, k: nat)
    requires n + k == 32
    ensures 1 <= Pow2(n) <= 0x1_0000_0000 && 1 <= Pow2(k) <= 0x1_0000_0000
    ensures Pow2(n) * Pow2(k) == 0x1_0000_0000
    ensures Shl32(Pow2(n) - 1, k) == 0x1_0000_0000 - Pow2(k)
  {
    hide Pow2;
    Pow2Of32();
    Pow2Sum(n, k);
    Pow2Monotone(n, 32);
    Pow2Monotone(k, 32);
    MulPred(Pow2(n), Pow2(k));
    Wrap32Id(0x1_0000_0000 - Pow2(k));
  }

  /** The two masks SignExtend builds. */
  lemma SignMasks(idx: nat)
    requires 1 <= idx <= 32
    ensures 1 <= Pow2(idx) <= 0x1_0000_0000
    ensures Wrap32(Shl32(1, idx) - 1) == Pow2(idx) - 1
    ensures Shl32(Wrap32(Shl32(1, Wrap32(32 - idx)) - 1), idx) == 0x1_0000_0000 - Pow2(idx)
  {
    hide Pow2;
    Pow2Of32();
    ShlOne(idx);
    ShlOne(32 - idx);
    ShlOnes(32 - idx, idx);
    Wrap32Id(32 - idx);
    Wrap32Id(Pow2(32 - idx) - 1);
  }

  lemma TopBit(dat: uint32, idx: nat)
    requires 1 <= idx <= 32 && dat < Pow2(idx)
    ensures Shr32(dat, idx - 1) != 0 <==> dat >= Pow2(idx - 1)
  {
    var p := Pow2(idx - 1);
    RemainderUnique(dat, p, if dat < p then 0 else 1, if dat < p then dat else dat - p);
  }

  lemma OrHigh(dat: uint32, idx: nat)
    requires idx <= 32 && dat < Pow2(idx)
    ensures 1 <= Pow2(idx) <= 0x1_0000_0000
    ensures Or32(dat, 0x1_0000_0000 - Pow2(idx)) == dat + 0x1_0000_0000 - Pow2(idx)
  {
    ShlOnes(32 - idx, idx);
    MulPred(Pow2(32 - idx), Pow2(idx));
    OrCommutes(0x1_0000_0000 - Pow2(idx), dat);
    OrDisjoint(Pow2(32 - idx) - 1, idx, dat);
  }

  /** On every value that fits in `idx` bits, SignExtend is two's complement sign extension. */
  lemma SignExtendCorrect(dat: uint32, idx: nat)
    requires 1 <= idx <= 32 && dat < Pow2(idx)
    ensures SignExtend(dat, idx) == Wrap32(if dat >= Pow2(idx - 1) then dat - Pow2(idx) else dat)
  {
    SignMasks(idx);
    Wrap32Id(idx - 1);
    TopBit(dat, idx);
    assert And32(dat, Pow2(idx) - 1) == dat by {
      AndLowMask(dat, idx);
      RemainderUnique(dat, Pow2(idx), 0, dat);
    }
    if dat >= Pow2(idx - 1) {
      OrHigh(dat, idx);
      RemainderUnique(dat - Pow2(idx), 0x1_0000_0000, -1, dat + 0x1_0000_0000 - Pow2(idx));
    } else {
      Wrap32Id(dat);
    }
  }

  lemma {:induction false} OrCommutes(x: nat, y: nat)
    ensures Or(x, y) == Or(y, x)
    decreases x + y
  {
    if x != 0 && y != 0 {
      OrCommutes(x / 2, y / 2);
    }
  }

  /** The arithmetic right shift of a word: the signed number divided by 2^n, rounded down. */
  function ShiftRightArithmetic(x: uint32, n: nat): uint32 {
    Wrap32(ToSigned(x) / Pow2(n))
  }

  lemma ShiftedParts(rt: uint32, n: nat)
    requires n < 32
    ensures 0 <= Shr32(rt, n) < Pow2(32 - n)
    ensures Shr32(rt, n) >= Pow2(31 - n) <==> rt >= 0x8000_0000
    ensures ToSigned(rt) / Pow2(n) == if rt >= 0x8000_0000 then Shr32(rt, n) - Pow2(32 - n) else Shr32(rt, n)
  {
    var p, m, q := Pow2(n), Pow2(32 - n), Shr32(rt, n);
    Pow2Of32();
    assert Pow2(32) == 2 * Pow2(31) && m == 2 * Pow2(31 - n);
    Pow2Sum(32 - n, n);
    Pow2Sum(31 - n, n);
    QuotientBound(rt, p, m);
    DivMod(rt, p, q);
    if rt >= 0x8000_0000 {
      MulDivLower(rt, p, Pow2(31 - n));
      SubtractMultiple(rt, p, q, m);
    } else {
      QuotientBound(rt, p, Pow2(31 - n));
    }
  }

  lemma SubtractMultiple(x: int, p: int, q: int, m: int)
    requires p > 0 && q == x / p
    ensures (x - m * p) / p == q - m
  {
    DivMod(x, p, q);
    assert (q - m) * p == q * p - m * p;
    QuotientUnique(x - m * p, p, q - m, x % p);
  }

  /** For every shift amount below 32, sra and srav compute the arithmetic shift. */
  lemma SraCorrect(rt: uint32, n: nat)
    requires n < 32
    ensures SignExtend(Shr32(rt, n), 32 - n) == ShiftRightArithmetic(rt, n)
  {
    ShiftedParts(rt, n);
    SignExtendCorrect(Shr32(rt, n), 32 - n);
  }

  /** srav does not reduce its shift amount: from 32 on it always gives zero. */
  lemma SravBeyond32(rt: uint32, rs: uint32)
    requires rs >= 32
    ensures Srav(rs, rt) == 0
  {
    Pow2Of32();
    Pow2Monotone(32, rs);
    RemainderUnique(rt, Pow2(rs), 0, rt);
    assert Shr32(rt, rs) == 0;
    ZeroShr(Wrap32(Wrap32(32 - rs) - 1));
  }

  lemma ZeroShr(n: nat)
    ensures Shr32(0, n) == 0
  {
    RemainderUnique(0, Pow2(n), 0, 0);
  }

  /** The architecture shifts by the low five bits of rs. The source agrees exactly if rs is
      below 32 or the value has no bit at or above that position. */
  lemma SravMeetsArchitecture(rs: uint32, rt: uint32)
    ensures Srav(rs, rt) == ShiftRightArithmetic(rt, rs % 32) <==> rs < 32 || rt < Pow2(rs % 32)
  {
    if rs < 32 {
      SravBelow32(rs, rt);
      RemainderUnique(rs, 32, 0, rs);
    } else {
      SravBeyond32(rt, rs);
      ShiftIsZero(rt, rs % 32);
    }
  }

  lemma SravBelow32(rs: uint32, rt: uint32)
    requires rs < 32
    ensures Srav(rs, rt) == ShiftRightArithmetic(rt, rs)
  {
    SraCorrect(rt, rs);
    Wrap32Id(32 - rs);
  }

  lemma ShiftIsZero(x: uint32, n: nat)
    requires n < 32
    ensures ShiftRightArithmetic(x, n) == 0 <==> x < Pow2(n)
  {
    Pow2Of32();
    Pow2Monotone(n, 31);
    assert Pow2(32) == 2 * Pow2(31);
    ShiftedParts(x, n);
    var q := Shr32(x, n);
    Pow2Monotone(32 - n, 32);
    if x >= 0x8000_0000 {
      RemainderUnique(q - Pow2(32 - n), 0x1_0000_0000, -1, q - Pow2(32 - n) + 0x1_0000_0000);
    } else {
      Wrap32Id(q);
      QuotientRange(x, Pow2(n), 0);
    }
  }
}
