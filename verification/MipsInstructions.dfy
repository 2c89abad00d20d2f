/** Every instruction and system call as a step of the machine, said in terms of registers, memory bytes and numbers
    (cannon/mipsevm/mips_instructions.go and mips_syscalls.go). */
module MipsInstructions {
  import opened Words
  import opened Arithmetic
  import opened Bits
  import opened MipsAlu
  import opened MipsSpec
  import opened MipsMeaning
  import opened Merkle
  import opened MemoryTree
  import opened Preimages
  import Hints

  // ----- fields -----

  /** An instruction word put together from its fields. */
  function Assembled(op: nat, rs: nat, rt: nat, rd: nat, shamt: nat, fun: nat): nat {
    ((((op * 0x20 + rs) * 0x20 + rt) * 0x20 + rd) * 0x20 + shamt) * 0x40 + fun
  }

  function Shamt(insn: uint32): uint32 {
    insn / 0x40 % 0x20
  }

  /** Taking the word apart gives the fields back, and the low 16 and 26 bits hold the right ones. */
  lemma FieldsReadBack(op: nat, rs: nat, rt: nat, rd: nat, shamt: nat, fun: nat)
    requires op < 0x40 && rs < 0x20 && rt < 0x20 && rd < 0x20 && shamt < 0x20 && fun < 0x40
    ensures var insn := Assembled(op, rs, rt, rd, shamt, fun);
            && insn < 0x1_0000_0000
            && Opcode(insn) == op && RsField(insn) == rs && RtField(insn) == rt && RdField(insn) == rd
            && Shamt(insn) == shamt && Fun(insn) == fun
            && insn % 0x1_0000 == (rd * 0x20 + shamt) * 0x40 + fun
            && insn % 0x400_0000 == (((rs * 0x20 + rt) * 0x20 + rd) * 0x20 + shamt) * 0x40 + fun
  {
    var low6, low11 := fun, shamt * 0x40 + fun;
    var low16 := rd * 0x800 + low11;
    var low21 := rt * 0x1_0000 + low16;
    var low26 := rs * 0x20_0000 + low21;
    var insn: int := op * 0x400_0000 + low26;
    assert insn == Assembled(op, rs, rt, rd, shamt, fun);
    RemainderUnique(insn, 0x400_0000, op, low26);
    RemainderUnique(insn, 0x20_0000, op * 0x20 + rs, low21);
    RemainderUnique(op * 0x20 + rs, 0x20, op, rs);
    RemainderUnique(insn, 0x1_0000, (op * 0x20 + rs) * 0x20 + rt, low16);
    RemainderUnique((op * 0x20 + rs) * 0x20 + rt, 0x20, op * 0x20 + rs, rt);
    RemainderUnique(insn, 0x800, ((op * 0x20 + rs) * 0x20 + rt) * 0x20 + rd, low11);
    RemainderUnique(((op * 0x20 + rs) * 0x20 + rt) * 0x20 + rd, 0x20, (op * 0x20 + rs) * 0x20 + rt, rd);
    RemainderUnique(insn, 0x40, (((op * 0x20 + rs) * 0x20 + rt) * 0x20 + rd) * 0x20 + shamt, low6);
    RemainderUnique((((op * 0x20 + rs) * 0x20 + rt) * 0x20 + rd) * 0x20 + shamt, 0x20, ((op * 0x20 + rs) * 0x20 + rt) * 0x20 + rd, shamt);
  }

  // ----- what a step may look like -----

  /** The next instruction follows, and nothing else but the given registers and memory has changed. */
  predicate Continues(v: Vm, o: Outcome, registers: Registers, mem: seq<byte>) {
    o == Done(v.(registers := registers, mem := mem, cpu := v.cpu.(pc := v.cpu.nextPC, nextPC := Wrap32(v.cpu.nextPC + 4))), [])
  }

  /** Register `reg` gets `x`, unless it is register 0. */
  predicate Sets(v: Vm, o: Outcome, reg: uint32, x: uint32)
    requires reg < 32
  {
    Continues(v, o, if reg == 0 then v.registers else v.registers[reg := x], v.mem)
  }

  /** After the delay slot, execution goes on at `target`; register `link` gets the address after the delay slot. */
  predicate GoesTo(v: Vm, o: Outcome, target: uint32, link: uint32)
    requires link < 32
  {
    o == Done(v.(registers := if link == 0 then v.registers else v.registers[link := Wrap32(v.cpu.pc + 8)],
                 cpu := v.cpu.(pc := v.cpu.nextPC, nextPC := target)), [])
  }

  predicate AtDelaySlot(v: Vm) {
    v.cpu.nextPC != Wrap32(v.cpu.pc + 4)
  }

  // ----- branches and jumps -----

  /** What a branch compares: its opcode, or for opcode 1 its rt field, says how. */
  predicate Compares(v: Vm, insn: uint32) {
    var x, y := v.registers[RsField(insn)], v.registers[RtField(insn)];
    var op := Opcode(insn);
    || (op == 4 && x == y)
    || (op == 5 && x != y)
    || (op == 6 && ToSigned(x) <= 0)
    || (op == 7 && ToSigned(x) > 0)
    || (op == 1 && RtField(insn) == 0 && ToSigned(x) < 0)
    || (op == 1 && RtField(insn) == 1 && ToSigned(x) >= 0)
  }

  /** beq, bne, blez, bgtz, bltz and bgez: after the delay slot, four times the signed immediate past the delay slot if
      the comparison holds, right after it if not. In a delay slot they panic. */
  lemma BranchSteps(v: Vm, insn: uint32)
    requires Wf(v) && Opcode(insn) in {1, 4, 5, 6, 7}
    ensures CoreStep(v, insn).Panic? <==> AtDelaySlot(v)
    ensures !AtDelaySlot(v) ==>
              GoesTo(v, CoreStep(v, insn), Wrap32(v.cpu.pc + 4 + if Compares(v, insn) then 4 * Imm(insn) else 4), 0)
  {
    hide SignedImm, Shl32, Imm, Opcode, RsField, RtField;
    if !AtDelaySlot(v) {
      BranchMeaning(v, insn, v.registers[RsField(insn)]);
    }
  }

  /** j, jal, jr and jalr: the link is the address after the delay slot, in register 31 for jal and in rd for jalr. */
  lemma JumpSteps(v: Vm, insn: uint32)
    requires Wf(v) && (Opcode(insn) in {2, 3} || (Opcode(insn) == 0 && Fun(insn) in {8, 9}))
    ensures CoreStep(v, insn).Panic? <==> AtDelaySlot(v)
    ensures var region := v.cpu.nextPC - v.cpu.nextPC % 0x1000_0000 + insn % 0x400_0000 * 4;
            !AtDelaySlot(v) ==>
              && (Opcode(insn) == 2 ==> GoesTo(v, CoreStep(v, insn), region, 0))
              && (Opcode(insn) == 3 ==> GoesTo(v, CoreStep(v, insn), region, 31))
              && (Opcode(insn) == 0 && Fun(insn) == 8 ==> GoesTo(v, CoreStep(v, insn), v.registers[RsField(insn)], 0))
              && (Opcode(insn) == 0 && Fun(insn) == 9 ==> GoesTo(v, CoreStep(v, insn), v.registers[RsField(insn)], RdField(insn)))
  {
    hide JumpTarget, Opcode, Fun, RsField, RtField, RdField;
    JumpMeaning(v.cpu.nextPC, insn);
  }

  // ----- register instructions -----

  /** Instructions that set rd to a value computed from rs and rt. */
  lemma RegisterStep(v: Vm, insn: uint32, x: uint32)
    requires Wf(v) && Opcode(insn) == 0 && Fun(insn) !in {8, 9, 0xA, 0xB} && !(0x10 <= Fun(insn) < 0x1C)
    requires AluSpecial(insn, Fun(insn), v.registers[RsField(insn)], v.registers[RtField(insn)]) == Some(x)
    ensures Sets(v, CoreStep(v, insn), RdField(insn), x)
  {
    hide AluSpecial, Opcode, Fun, RsField, RtField, RdField;
  }

  /** sll, srl, sra and their variable forms, which take their amount from rs; srav alone does not reduce it. */
  lemma ShiftSteps(v: Vm, insn: uint32)
    requires Wf(v) && Opcode(insn) == 0
    ensures var x, y, o := v.registers[RsField(insn)], v.registers[RtField(insn)], CoreStep(v, insn);
            && (Fun(insn) == 0 ==> Sets(v, o, RdField(insn), Wrap32(y * Pow2(Shamt(insn)))))
            && (Fun(insn) == 4 ==> Sets(v, o, RdField(insn), Wrap32(y * Pow2(x % 32))))
            && (Fun(insn) == 2 ==> Sets(v, o, RdField(insn), Wrap32(y / Pow2(Shamt(insn)))))
            && (Fun(insn) == 6 ==> Sets(v, o, RdField(insn), Wrap32(y / Pow2(x % 32))))
            && (Fun(insn) == 3 ==> Sets(v, o, RdField(insn), Wrap32(ToSigned(y) / Pow2(Shamt(insn)))))
            && (Fun(insn) == 7 ==> Sets(v, o, RdField(insn), if x < 32 then Wrap32(ToSigned(y) / Pow2(x)) else 0))
  {
    hide Pow2, SignExtend, Opcode, Fun, RsField, RtField, RdField, Sets, ToSigned, CoreStep, Shamt, Wrap32, Shr32, Shl32, Srav;
    var x, y, f := v.registers[RsField(insn)], v.registers[RtField(insn)], Fun(insn);
    ShiftAlu(insn, x, y);
    ShiftValues(x, y, Shamt(insn));
    ShiftValues(x, y, x % 32);
    match f {
      case 0 => RegisterStep(v, insn, Shl32(y, Shamt(insn)));
      case 4 => RegisterStep(v, insn, Shl32(y, x % 32));
      case 2 => RegisterStep(v, insn, Shr32(y, Shamt(insn)));
      case 6 => RegisterStep(v, insn, Shr32(y, x % 32));
      case 3 => RegisterStep(v, insn, SignExtend(Shr32(y, Shamt(insn)), 32 - Shamt(insn)));
      case 7 => RegisterStep(v, insn, Srav(x, y));
      case _ =>
    }
  }

  lemma ShiftAlu(insn: uint32, x: uint32, y: uint32)
    ensures Shamt(insn) < 32
    ensures AluSpecial(insn, 0, x, y) == Some(Shl32(y, Shamt(insn))) && AluSpecial(insn, 4, x, y) == Some(Shl32(y, x % 32))
    ensures AluSpecial(insn, 2, x, y) == Some(Shr32(y, Shamt(insn))) && AluSpecial(insn, 6, x, y) == Some(Shr32(y, x % 32))
    ensures AluSpecial(insn, 3, x, y) == Some(SignExtend(Shr32(y, Shamt(insn)), 32 - Shamt(insn)))
    ensures AluSpecial(insn, 7, x, y) == Some(Srav(x, y))
  {
    hide SignExtend, Srav, Shl32, Shr32;
  }

  lemma ShiftValues(x: uint32, y: uint32, n: nat)
    requires n < 32
    ensures Shl32(y, n) == Wrap32(y * Pow2(n)) && Shr32(y, n) == Wrap32(y / Pow2(n))
    ensures SignExtend(Shr32(y, n), 32 - n) == Wrap32(ToSigned(y) / Pow2(n))
    ensures Srav(x, y) == if x < 32 then Wrap32(ToSigned(y) / Pow2(x)) else 0
  {
    hide Pow2, SignExtend, ToSigned, Srav;
    ShrFits(y, n);
    SraCorrect(y, n);
    if x < 32 {
      RemainderUnique(x, 32, 0, x);
      SravMeetsArchitecture(x, y);
    } else {
      SravBeyond32(y, x);
    }
  }

  lemma ShrFits(y: uint32, n: nat)
    ensures Shr32(y, n) == Wrap32(y / Pow2(n))
  {
    hide Pow2;
    Wrap32Id(Shr32(y, n));
  }

  /** Sums and differences wrap around; comparisons give 1 or 0, signed or not. */
  lemma ArithmeticSteps(v: Vm, insn: uint32)
    requires Wf(v) && Opcode(insn) == 0
    ensures var x, y, o := v.registers[RsField(insn)], v.registers[RtField(insn)], CoreStep(v, insn);
            && (Fun(insn) in {0x20, 0x21} ==> Sets(v, o, RdField(insn), Wrap32(x as int + y)))
            && (Fun(insn) in {0x22, 0x23} ==> Sets(v, o, RdField(insn), Wrap32(x as int - y)))
            && (Fun(insn) == 0x2A ==> Sets(v, o, RdField(insn), if ToSigned(x) < ToSigned(y) then 1 else 0))
            && (Fun(insn) == 0x2B ==> Sets(v, o, RdField(insn), if x < y then 1 else 0))
  {
    hide Opcode, Fun, RsField, RtField, RdField, Sets, ToSigned, Wrap32, Shl32, Shr32, SignExtend;
    var x, y, f := v.registers[RsField(insn)], v.registers[RtField(insn)], Fun(insn);
    if f in {0x20, 0x21, 0x22, 0x23, 0x2A, 0x2B} {
      RegisterStep(v, insn, AluSpecial(insn, f, x, y).value);
    }
  }

  /** Bit `i` of the result of and, or, xor and nor, by function code. */
  function LogicBit(fun: uint32, p: nat, q: nat): nat {
    if fun == 0x24 then (if p == 1 && q == 1 then 1 else 0)
    else if fun == 0x25 then (if p == 1 || q == 1 then 1 else 0)
    else if fun == 0x26 then (if p != q then 1 else 0)
    else (if p == 1 || q == 1 then 0 else 1)
  }

  /** and, or, xor and nor, bit by bit. */
  lemma LogicSteps(v: Vm, insn: uint32) returns (z: uint32)
    requires Wf(v) && Opcode(insn) == 0 && Fun(insn) in {0x24, 0x25, 0x26, 0x27}
    ensures Sets(v, CoreStep(v, insn), RdField(insn), z)
    ensures forall i: nat :: i < 32 ==>
              Bit(z, i) == LogicBit(Fun(insn), Bit(v.registers[RsField(insn)], i), Bit(v.registers[RtField(insn)], i))
  {
    hide Opcode, Fun, RsField, RtField, RdField, Sets, Bit, And, Or, Xor, Shl32, Shr32, SignExtend;
    var x, y, f := v.registers[RsField(insn)], v.registers[RtField(insn)], Fun(insn);
    z := AluSpecial(insn, f, x, y).value;
    RegisterStep(v, insn, z);
    forall i: nat | i < 32 ensures Bit(z, i) == LogicBit(f, Bit(x, i), Bit(y, i)) {
      BitwiseMeaning(x, y, i);
      Pow2Of32();
      BitwiseMeaning(y, x, i);
      NotMeaning(Or32(x, y), 32, i);
    }
  }

  /** movz and movn write rd only if rt is, or is not, zero. */
  lemma MoveSteps(v: Vm, insn: uint32)
    requires Wf(v) && Opcode(insn) == 0
    ensures var x, y, o := v.registers[RsField(insn)], v.registers[RtField(insn)], CoreStep(v, insn);
            && (Fun(insn) == 0xA && y == 0 ==> Sets(v, o, RdField(insn), x))
            && (Fun(insn) == 0xA && y != 0 ==> Continues(v, o, v.registers, v.mem))
            && (Fun(insn) == 0xB && y != 0 ==> Sets(v, o, RdField(insn), x))
            && (Fun(insn) == 0xB && y == 0 ==> Continues(v, o, v.registers, v.mem))
  {
    hide Opcode, Fun, RsField, RtField, RdField;
  }

  /** The hi/lo group goes on to the next instruction, with hi and lo as given. What writes hi or lo also clears rd. */
  predicate SetsHiLo(v: Vm, o: Outcome, hi: uint32, lo: uint32, rd: uint32, x: uint32)
    requires rd < 32
  {
    Sets(v.(cpu := v.cpu.(hi := hi, lo := lo)), o, rd, x)
  }

  lemma HiLoMoveSteps(v: Vm, insn: uint32)
    requires Wf(v) && Opcode(insn) == 0
    ensures var x, o, rd := v.registers[RsField(insn)], CoreStep(v, insn), RdField(insn);
            && (Fun(insn) == 0x10 ==> SetsHiLo(v, o, v.cpu.hi, v.cpu.lo, rd, v.cpu.hi))
            && (Fun(insn) == 0x11 ==> SetsHiLo(v, o, x, v.cpu.lo, rd, 0))
            && (Fun(insn) == 0x12 ==> SetsHiLo(v, o, v.cpu.hi, v.cpu.lo, rd, v.cpu.lo))
            && (Fun(insn) == 0x13 ==> SetsHiLo(v, o, v.cpu.hi, x, rd, 0))
  {
    hide Opcode, Fun, RsField, RtField, RdField;
  }

  /** mult and multu leave the 64-bit product in hi and lo. */
  lemma ProductSteps(v: Vm, insn: uint32) returns (hi: uint32, lo: uint32)
    requires Wf(v) && Opcode(insn) == 0 && Fun(insn) in {0x18, 0x19}
    ensures SetsHiLo(v, CoreStep(v, insn), hi, lo, RdField(insn), 0)
    ensures var x, y := v.registers[RsField(insn)], v.registers[RtField(insn)];
            && (Fun(insn) == 0x18 ==> (hi as int * 0x1_0000_0000 + lo - ToSigned(x) * ToSigned(y)) % 0x1_0000_0000_0000_0000 == 0)
            && (Fun(insn) == 0x19 ==> hi as int * 0x1_0000_0000 + lo == x as int * y)
  {
    hide Opcode, Fun, RsField, RtField, RdField, ToSigned, HiLo, CoreStep, SetsHiLo;
    var x, y, f := v.registers[RsField(insn)], v.registers[RtField(insn)], Fun(insn);
    MultMeaning(v.cpu, x, y);
    HiLoSets(v, insn);
    var r := HiLo(v.cpu, f, x, y).value.1;
    hi, lo := r.hi, r.lo;
  }

  /** div and divu leave the remainder and the quotient in hi and lo, rounding towards zero, and panic exactly on a zero
      divisor. The one quotient that does not fit wraps around. */
  lemma DivisionSteps(v: Vm, insn: uint32) returns (hi: uint32, lo: uint32)
    requires Wf(v) && Opcode(insn) == 0 && Fun(insn) in {0x1A, 0x1B}
    ensures CoreStep(v, insn).Panic? <==> v.registers[RtField(insn)] == 0
    ensures CoreStep(v, insn).Done? ==> SetsHiLo(v, CoreStep(v, insn), hi, lo, RdField(insn), 0)
    ensures var x, y := v.registers[RsField(insn)], v.registers[RtField(insn)];
            && (Fun(insn) == 0x1B && y != 0 ==> x == lo as int * y + hi && hi < y)
            && (Fun(insn) == 0x1A && y != 0 ==>
                  var a, b, q, r := ToSigned(x), ToSigned(y), ToSigned(lo), ToSigned(hi);
                  && (a == q * b + r <==> !(a == -0x8000_0000 && b == -1))
                  && MipsSpec.Abs(r) < MipsSpec.Abs(b) && (r == 0 || (r < 0) == (a < 0)))
  {
    hide Opcode, Fun, RsField, RtField, RdField, ToSigned, HiLo, CoreStep, SetsHiLo;
    var x, y, f := v.registers[RsField(insn)], v.registers[RtField(insn)], Fun(insn);
    DivMeaning(v.cpu, x, y);
    HiLoSets(v, insn);
    hi, lo := 0, 0;
    if y != 0 {
      var r := HiLo(v.cpu, f, x, y).value.1;
      hi, lo := r.hi, r.lo;
    }
  }

  lemma HiLoForm(cpu: Cpu, fun: uint32, x: uint32, y: uint32)
    requires fun in {0x18, 0x19, 0x1A, 0x1B}
    ensures var r := HiLo(cpu, fun, x, y); r.Some? ==> r.value.0 == 0 && r.value.1 == cpu.(hi := r.value.1.hi, lo := r.value.1.lo)
  {
    hide ToSigned, Quot, Rem, Wrap32;
  }

  lemma HiLoStep(v: Vm, insn: uint32)
    requires Wf(v) && Opcode(insn) == 0 && Fun(insn) in {0x18, 0x19, 0x1A, 0x1B}
    ensures CoreStep(v, insn) ==
            match HiLo(v.cpu, Fun(insn), v.registers[RsField(insn)], v.registers[RtField(insn)])
            case None => Panic
            case Some((x, cpu)) =>
              Done(v.(registers := SetRegister(v.registers, RdField(insn), x), cpu := Advance(cpu)), [])
  {
    hide Opcode, Fun, RsField, RtField, RdField, HiLo;
  }

  lemma HiLoSets(v: Vm, insn: uint32)
    requires Wf(v) && Opcode(insn) == 0 && Fun(insn) in {0x18, 0x19, 0x1A, 0x1B}
    ensures var r, o := HiLo(v.cpu, Fun(insn), v.registers[RsField(insn)], v.registers[RtField(insn)]), CoreStep(v, insn);
            if r.None? then o.Panic? else o.Done? && SetsHiLo(v, o, r.value.1.hi, r.value.1.lo, RdField(insn), 0)
  {
    hide Opcode, Fun, RsField, RtField, RdField, HiLo, CoreStep;
    HiLoForm(v.cpu, Fun(insn), v.registers[RsField(insn)], v.registers[RtField(insn)]);
    HiLoStep(v, insn);
  }

  /** mul gives the low 32 bits of the product, clz and clo the number of leading zeros and ones. */
  lemma Special2Steps(v: Vm, insn: uint32)
    requires Wf(v) && Opcode(insn) == 0x1C
    ensures var x, y, o := v.registers[RsField(insn)], v.registers[RtField(insn)], CoreStep(v, insn);
            && (Fun(insn) == 2 ==> Sets(v, o, RdField(insn), Wrap32(ToSigned(x) * ToSigned(y))))
            && (Fun(insn) == 0x20 ==> exists n: uint32 :: LeadingZeros(x, n) && Sets(v, o, RdField(insn), n))
            && (Fun(insn) == 0x21 ==> exists n: uint32 :: LeadingZeros(0xFFFF_FFFF - x, n) && Sets(v, o, RdField(insn), n))
            && (o.Panic? <==> Fun(insn) !in {2, 0x20, 0x21})
  {
    hide Opcode, Fun, RsField, RtField, RdField, ToSigned, Wrap32, LeadingOnes, LeadingZeros;
    var x := v.registers[RsField(insn)];
    CountsZeros(Not32(x));
    CountsZeros(x);
    if Fun(insn) == 0x20 {
      assert LeadingZeros(x, LeadingOnes(Not32(x))) && Sets(v, CoreStep(v, insn), RdField(insn), LeadingOnes(Not32(x)));
    }
    if Fun(insn) == 0x21 {
      assert LeadingZeros(0xFFFF_FFFF - x, LeadingOnes(x)) && Sets(v, CoreStep(v, insn), RdField(insn), LeadingOnes(x));
    }
  }

  /** The first `n` of 32 bits are zero, and the next one, if any, is not. */
  predicate LeadingZeros(x: uint32, n: nat) {
    n <= 32 && x < Pow2(32 - n) && (n < 32 ==> x >= Pow2(31 - n))
  }

  lemma CountsZeros(x: uint32)
    ensures LeadingZeros(0xFFFF_FFFF - x, LeadingOnes(x))
  {
    var y := Not32(x);
    Pow2Of32();
    if y > 0 {
      LenPositive(y);
      BitLenBounds(y);
      Pow2Next(BitLen(y) - 1);
      assert 32 - LeadingOnes(x) == BitLen(y);
    }
  }

  // ----- immediates -----

  /** The immediate is signed, except for the three bitwise instructions and lui. */
  lemma ImmediateSteps(v: Vm, insn: uint32)
    requires Wf(v) && 8 <= Opcode(insn) <= 0xF
    ensures var x, i, low, rt, o := v.registers[RsField(insn)], Imm(insn), insn % 0x1_0000, RtField(insn), CoreStep(v, insn);
            && (Opcode(insn) in {8, 9} ==> Sets(v, o, rt, Wrap32(x + i)))
            && (Opcode(insn) == 0xA ==> Sets(v, o, rt, if ToSigned(x) < i then 1 else 0))
            && (Opcode(insn) == 0xB ==> Sets(v, o, rt, if x < Wrap32(i) then 1 else 0))
            && (Opcode(insn) == 0xC ==> Sets(v, o, rt, And32(x, low)))
            && (Opcode(insn) == 0xD ==> Sets(v, o, rt, Or32(x, low)))
            && (Opcode(insn) == 0xE ==> Sets(v, o, rt, Xor32(x, low)))
            && (Opcode(insn) == 0xF ==> Sets(v, o, rt, low * 0x1_0000))
  {
    hide SignedImm, And32, Or32, Xor32, Opcode, Fun, RsField, RtField, RdField, Imm, Alu, RtOperand, Wrap32, ToSigned;
    ImmediateMeaning(v.registers, insn);
    assert CoreStep(v, insn).Done?;
  }

  // ----- loads and stores -----

  /** The address of a load or store: base register plus signed immediate. */
  function Address(v: Vm, insn: uint32): uint32 {
    Wrap32(v.registers[RsField(insn)] + Imm(insn))
  }

  /** The word around an address. */
  function WordAt(v: Vm, a: uint32): uint32
    requires Wf(v)
  {
    Word(v.mem[a - a % 4..a - a % 4 + 4])
  }

  lemma LoadStep(v: Vm, insn: uint32, x: uint32)
    requires Wf(v) && Opcode(insn) in {0x20, 0x21, 0x23, 0x24, 0x25, 0x30}
    requires Alu(insn, Opcode(insn), Fun(insn), Address(v, insn), RtOperand(v.registers, insn), WordAt(v, Address(v, insn))) == Some(x)
    ensures Sets(v, CoreStep(v, insn), RtField(insn), x)
  {
    hide SignedImm, Imm, Opcode, Fun, RsField, RtField, RdField, Alu, Wrap32, Word, RtOperand;
    AddressMeaning(v.registers, insn);
  }

  /** lw and ll load the word around the address, lbu and lb the byte at it, without or with its sign. */
  lemma LoadSteps(v: Vm, insn: uint32)
    requires Wf(v)
    ensures var a, rt, o := Address(v, insn), RtField(insn), CoreStep(v, insn);
            && (Opcode(insn) in {0x23, 0x30} ==> Sets(v, o, rt, WordAt(v, a)))
            && (Opcode(insn) == 0x24 ==> Sets(v, o, rt, v.mem[a]))
            && (Opcode(insn) == 0x20 ==> Sets(v, o, rt, Wrap32(if v.mem[a] >= 0x80 then v.mem[a] as int - 0x100 else v.mem[a])))
  {
    hide Opcode, Fun, RsField, RtField, Sets, Address, Word, RtOperand, Wrap32, CoreStep, Alu;
    var a, y := Address(v, insn), RtOperand(v.registers, insn);
    WholeWord(insn, Opcode(insn), Fun(insn), a, y, WordAt(v, a));
    LoadByteMeaning(v.mem, insn, Fun(insn), a, y);
    if Opcode(insn) in {0x20, 0x23, 0x24, 0x30} {
      LoadStep(v, insn, Alu(insn, Opcode(insn), Fun(insn), a, y, WordAt(v, a)).value);
    }
  }

  lemma WholeWord(insn: uint32, opcode: uint32, fun: uint32, a: uint32, rt: uint32, w: uint32)
    ensures opcode in {0x23, 0x30} ==> Alu(insn, opcode, fun, a, rt, w) == Some(w)
  {
  }

  /** lhu and lh load the halfword around the address, without or with its sign. */
  lemma LoadHalfSteps(v: Vm, insn: uint32)
    requires Wf(v)
    ensures var a, rt, o := Address(v, insn), RtField(insn), CoreStep(v, insn);
            var h: nat := a / 2 * 2;
            && h + 2 <= MEM_SIZE
            && (var half: uint32 := v.mem[h] as int * 0x100 + v.mem[h + 1];
                && (Opcode(insn) == 0x25 ==> Sets(v, o, rt, half))
                && (Opcode(insn) == 0x21 ==> Sets(v, o, rt, Wrap32(if half >= 0x8000 then half as int - 0x1_0000 else half))))
  {
    hide Opcode, Fun, RsField, RtField, Sets, Address, Shr32, SignExtend, Word, RtOperand, Wrap32;
    var a, y := Address(v, insn), RtOperand(v.registers, insn);
    LoadHalfMeaning(v.mem, insn, Fun(insn), a, y);
    if Opcode(insn) in {0x21, 0x25} {
      LoadStep(v, insn, Alu(insn, Opcode(insn), Fun(insn), a, y, WordAt(v, a)).value);
    }
  }

  lemma StoreStep(v: Vm, insn: uint32, x: uint32)
    requires Wf(v) && Opcode(insn) in {0x28, 0x29, 0x2B}
    requires Alu(insn, Opcode(insn), Fun(insn), Address(v, insn), v.registers[RtField(insn)], WordAt(v, Address(v, insn))) == Some(x)
    ensures Continues(v, CoreStep(v, insn), v.registers, StoreWord(v.mem, Aligned(Address(v, insn)), x))
  {
    hide SignedImm, Imm, Opcode, Fun, RsField, RtField, RdField, Alu, Wrap32, Word, StoreWord;
    AddressMeaning(v.registers, insn);
  }

  /** sb, sh and sw change the byte, halfword or word of memory at the address, and no other. */
  lemma StoreSteps(v: Vm, insn: uint32)
    requires Wf(v)
    ensures var a, x, o := Address(v, insn), v.registers[RtField(insn)], CoreStep(v, insn);
            var h: nat, w: nat := a / 2 * 2, a - a % 4;
            && h + 2 <= MEM_SIZE && w + 4 <= MEM_SIZE
            && (Opcode(insn) == 0x28 ==> Continues(v, o, v.registers, v.mem[a := x % 0x100]))
            && (Opcode(insn) == 0x29 ==> Continues(v, o, v.registers, v.mem[h := x / 0x100 % 0x100][h + 1 := x % 0x100]))
            && (Opcode(insn) == 0x2B ==> Continues(v, o, v.registers, v.mem[..w] + PutBE(x, 4) + v.mem[w + 4..]))
  {
    hide Opcode, Fun, RsField, RtField, Continues, Address, Alu, CoreStep, Word, PutBE;
    var a, x := Address(v, insn), v.registers[RtField(insn)];
    WholeRegister(insn, Fun(insn), a, x, WordAt(v, a));
    StoreByteMeaning(v.mem, insn, Fun(insn), a, x);
    StoreHalfMeaning(v.mem, insn, Fun(insn), a, x);
    if Opcode(insn) in {0x28, 0x29, 0x2B} {
      StoreStep(v, insn, Alu(insn, Opcode(insn), Fun(insn), a, x, WordAt(v, a)).value);
    }
  }

  lemma WholeRegister(insn: uint32, fun: uint32, a: uint32, rt: uint32, w: uint32)
    ensures Alu(insn, 0x2B, fun, a, rt, w) == Some(rt) && Alu(insn, 0x38, fun, a, rt, w) == Some(rt)
  {
  }

  /** sc stores the register, then sets it to 1 unless it is register 0. */
  lemma StoreConditionalStep(v: Vm, insn: uint32)
    requires Wf(v) && Opcode(insn) == 0x38
    ensures var rt, a := RtField(insn), Address(v, insn);
            var w: nat := a - a % 4;
            w + 4 <= MEM_SIZE &&
            Continues(v, CoreStep(v, insn), if rt == 0 then v.registers else v.registers[rt := 1],
                      v.mem[..w] + PutBE(v.registers[rt], 4) + v.mem[w + 4..])
  {
    hide SignedImm, Imm, Opcode, Fun, RsField, RtField, RdField, Alu, Wrap32, Word, PutBE, LoadWord, EffectiveAddress;
    AddressMeaning(v.registers, insn);
    WholeRegister(insn, Fun(insn), RsOperand(v.registers, insn), RtOperand(v.registers, insn), MemOperand(v, insn));
  }

  // ----- which instructions there are -----

  /** The function codes of opcode 0 that the machine knows; break is not among them. */
  predicate KnownFun(fun: uint32) {
    fun in {0, 2, 3, 4, 6, 7, 8, 9, 0xA, 0xB, 0xC, 0xF, 0x10, 0x11, 0x12, 0x13, 0x18, 0x19, 0x1A, 0x1B} ||
    0x20 <= fun <= 0x27 || fun in {0x2A, 0x2B}
  }

  predicate Known(insn: uint32) {
    var op := Opcode(insn);
    if op == 0 then KnownFun(Fun(insn))
    else if op == 0x1C then Fun(insn) in {2, 0x20, 0x21}
    else 1 <= op <= 0xF || 0x20 <= op <= 0x26 || op in {0x28, 0x29, 0x2A, 0x2B, 0x2E, 0x30, 0x38}
  }

  predicate IsJumpOrBranch(insn: uint32) {
    1 <= Opcode(insn) <= 7 || (Opcode(insn) == 0 && Fun(insn) in {8, 9})
  }

  /** A step panics exactly on an unknown instruction, a jump or branch in a delay slot, or a division by zero. */
  lemma PanicsIff(v: Vm, insn: uint32)
    requires Wf(v)
    ensures CoreStep(v, insn).Panic? <==>
            || !Known(insn)
            || (IsJumpOrBranch(insn) && AtDelaySlot(v))
            || (Opcode(insn) == 0 && Fun(insn) in {0x1A, 0x1B} && v.registers[RtField(insn)] == 0)
  {
    hide LoadWord, StoreWord, JumpTarget, SignedImm, EffectiveAddress, Shl32, Shr32, SignExtend, LeadingOnes, And32, Or32, Xor32;
    hide ToSigned, Wrap32, Quot, Rem;
  }

  // ----- the step and its system calls -----

  /** A step does nothing once the machine has exited, panics off word boundaries, and otherwise counts itself and runs
      the instruction at the program counter. */
  lemma StepRuns(oracle: Oracle, v: Vm)
    requires Wf(v)
    ensures v.exited ==> Step(oracle, v) == Done(v, [])
    ensures !v.exited && v.cpu.pc % 4 != 0 ==> Step(oracle, v) == Panic
    ensures !v.exited && v.cpu.pc % 4 == 0 ==>
              var insn := Word(v.mem[v.cpu.pc..v.cpu.pc + 4]);
              var counted := v.(step := (v.step + 1) % 0x1_0000_0000_0000_0000);
              Step(oracle, v) == if insn / 0x400_0000 == 0 && insn % 0x40 == 0xC then Syscall(oracle, counted) else CoreStep(counted, insn)
  {
    hide Syscall, CoreStep;
  }

  /** The call returns `x` and the error number `e`, and nothing else but the given heap has changed. */
  predicate Returns(v: Vm, o: Outcome, x: uint32, e: uint32, heap: uint32) {
    Continues(v.(heap := heap), o, v.registers[2 := x][7 := e], v.mem)
  }

  /** The calls that only return a value, by number: mmap, brk, clone, exit_group, fcntl and all others. */
  lemma PlainCalls(oracle: Oracle, v: Vm)
    requires Wf(v)
    ensures var num, a0, a1, o := v.registers[2], v.registers[4], v.registers[5], Syscall(oracle, v);
            && (num == 4090 && a0 == 0 ==> Returns(v, o, v.heap, 0, Wrap32(v.heap as int + (a1 as int + 4095) / 4096 * 4096)))
            && (num == 4090 && a0 != 0 ==> Returns(v, o, a0, 0, v.heap))
            && (num == 4045 ==> Returns(v, o, 0x4000_0000, 0, v.heap))
            && (num == 4120 ==> Returns(v, o, 1, 0, v.heap))
            && (num == 4246 ==> o == Done(v.(exited := true, exitCode := a0 % 0x100), []))
            && (num == 4055 && a1 == 3 && a0 in {0, 3, 5} ==> Returns(v, o, 0, 0, v.heap))
            && (num == 4055 && a1 == 3 && a0 in {1, 2, 4, 6} ==> Returns(v, o, 1, 0, v.heap))
            && (num == 4055 && a1 == 3 && a0 > 6 ==> Returns(v, o, 0xFFFF_FFFF, 9, v.heap))
            && (num == 4055 && a1 != 3 ==> Returns(v, o, 0xFFFF_FFFF, 22, v.heap))
            && (num !in {4090, 4045, 4120, 4246, 4055, 4003, 4004} ==> Returns(v, o, 0, 0, v.heap))
  {
    hide Mmap, SysRead, SysWrite;
    MmapMeaning(v.registers[4], v.registers[5], v.heap);
  }

  /** Reads from standard input end at once, reads of hints claim everything, and only three descriptors can be read. */
  lemma ReadCalls(oracle: Oracle, v: Vm)
    requires Wf(v) && v.registers[2] == 4003
    ensures var fd, count, o := v.registers[4], v.registers[6], Syscall(oracle, v);
            && (fd == 0 ==> Returns(v, o, 0, 0, v.heap))
            && (fd == 3 ==> Returns(v, o, count, 0, v.heap))
            && (fd !in {0, 3, 5} ==> Returns(v, o, 0xFFFF_FFFF, 9, v.heap))
  {
    hide ReadPreimage, Fetch, Word, Overwrite, StoreWord;
  }

  /** The read of a preimage takes what is left in the entry, up to the end of the aligned word and the count asked for,
      puts these bytes at the address and moves the offset behind them. */
  lemma PreimageRead(oracle: Oracle, v: Vm)
    requires Wf(v) && v.registers[2] == 4003 && v.registers[4] == 5
    ensures var entry := Fetch(oracle, v.cache, v.preimageKey);
            var a, count, off, o := v.registers[5], v.registers[6], v.preimageOffset, Syscall(oracle, v);
            && (o.Panic? <==> off > |entry.data|)
            && (o.Done? ==>
                  var n: nat := Min(Min(|entry.data| - off, 4 - a % 4), count);
                  a + n <= MEM_SIZE &&
                  Returns(v.(mem := v.mem[..a] + entry.data[off..off + n] + v.mem[a + n..],
                             preimageOffset := Wrap32(off + n), cache := entry), o, n, 0, v.heap))
  {
    hide Word, Overwrite, StoreWord, Fetch, ReadLength;
    var a, off, data := v.registers[5], v.preimageOffset, Fetch(oracle, v.cache, v.preimageKey).data;
    if off <= |data| {
      var n := NextBytes(data, off, a % 4, v.registers[6]);
      ReadWritesBytes(v.mem, a, data[off..off + n]);
    }
  }

  lemma NextBytes(data: seq<byte>, off: nat, alignment: Alignment, count: nat) returns (n: nat)
    requires off <= |data|
    ensures n == Min(Min(|data| - off, 4 - alignment), count) && n <= 4 - alignment && off + n <= |data|
    ensures var dat := data[off..Min(off + 32, |data|)];
            ReadLength(|dat|, alignment, count) == n && dat[..n] == data[off..off + n]
  {
    n := Min(Min(|data| - off, 4 - alignment), count);
    SliceOfSlice(data, off, Min(off + 32, |data|), 0, n);
  }

  /** Writes to standard output and error claim everything, key bytes go up to the end of the aligned word, and only four
      descriptors can be written. */
  lemma WriteCalls(oracle: Oracle, v: Vm)
    requires Wf(v) && v.registers[2] == 4004
    ensures var fd, a, count, o := v.registers[4], v.registers[5], v.registers[6], Syscall(oracle, v);
            var n: nat := Min(count, 4 - a % 4);
            && a + n <= MEM_SIZE
            && (fd in {1, 2} ==> Returns(v, o, count, 0, v.heap))
            && (fd == 6 ==>
                  Returns(v.(preimageKey := v.preimageKey[n..] + v.mem[a..a + n], preimageOffset := 0), o, n, 0, v.heap))
            && (fd !in {1, 2, 4, 6} ==> Returns(v, o, 0xFFFF_FFFF, 9, v.heap))
            && (fd == 4 && o.Done? ==> Returns(v.(lastHint := o.vm.lastHint), o.(hints := []), count, 0, v.heap))
  {
    hide RangeBytes, Hints.Decode;
  }
}
