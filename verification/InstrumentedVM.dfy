/** The instrumented VM: the step machine over the paged memory, recording the memory branch and the
    preimage that a step touches (cannon/mipsevm/instrumented.go, mips.go, mips_instructions.go). */
module InstrumentedVM {
  import opened Words
  import opened Arithmetic
  import opened Bits
  import opened Merkle
  import opened MemoryTree
  import opened PagedMemory
  import opened MipsAlu
  import opened MipsSpec
  import opened Preimages
  import opened MemReaders
  import Hints
  import StateWitness

  const NO_ACCESS: uint32 := 0xFFFF_FFFF

  /** Counts leading ones by shifting them out, as clz and clo do. */
  method CountLeadingOnes(x: uint32) returns (i: uint32)
    ensures i == LeadingOnes(x)
  {
    ghost var y: int := Not32(x) + 1;
    var rs: uint32 := x;
    i := 0;
    while rs >= 0x8000_0000
      invariant 0 <= i <= 32
      invariant y * Pow2(i) + rs == 0x1_0000_0000
      decreases 32 - i
    {
      ShiftOut(y, i, rs);
      rs := Shl32(rs, 1);
      i := i + 1;
    }
    ShiftedOut(x, i);
  }

  lemma MulDouble(y: int, p: int)
    ensures y * (2 * p) == 2 * (y * p)
  {
  }

  lemma ShiftOut(y: nat, i: nat, rs: uint32)
    requires 1 <= y && i <= 32 && rs >= 0x8000_0000 && y * Pow2(i) == 0x1_0000_0000 - rs
    ensures i < 32 && y * Pow2(i + 1) == 0x1_0000_0000 - Shl32(rs, 1)
  {
    Pow2Of32();
    assert Pow2(1) == 2;
    hide Pow2;
    MulMonotone(1, y, Pow2(i));
    MulDouble(y, Pow2(i));
    Pow2Next(i);
    RemainderUnique(2 * rs, 0x1_0000_0000, 1, 2 * rs - 0x1_0000_0000);
  }

  lemma Sandwich(y: int, i: nat)
    requires i < 32 && 0x8000_0000 < y * Pow2(i) <= 0x1_0000_0000
    ensures Pow2(31 - i) < y <= Pow2(32 - i)
  {
    Pow2Of32();
    assert Pow2(32) == 2 * Pow2(31);
    Pow2Sum(32 - i, i);
    Pow2Sum(31 - i, i);
    MulCancel(Pow2(31 - i), y, Pow2(i));
    MulCancel(Pow2(32 - i), y, Pow2(i));
  }

  lemma ShiftedOut(x: uint32, i: nat)
    requires i <= 32
    requires 0x8000_0000 < (Not32(x) as int + 1) * Pow2(i) <= 0x1_0000_0000
    ensures LeadingOnes(x) == i
  {
    if i < 32 {
      Sandwich(Not32(x) + 1, i);
      BitLenUnique(Not32(x), 32 - i);
    } else {
      Pow2Of32();
      MulCancel(1, Not32(x) + 1, Pow2(32));
    }
  }

  /** Jumps through registers, conditional moves and the hi/lo group. */
  predicate IsSpecial(insn: uint32) {
    Opcode(insn) == 0 && (Fun(insn) in {0x8, 0x9, 0xA, 0xB} || 0x10 <= Fun(insn) < 0x1C)
  }

  /** The step is not a write syscall whose range wraps around into the page it starts in. */
  predicate ReadableRange(v: Vm)
    requires Wf(v)
  {
    !v.exited && v.cpu.pc % 4 == 0 && IsSyscall(LoadWord(v.mem, v.cpu.pc)) && v.registers[2] == SYS_WRITE ==>
      RangeReadable(v.registers[4], v.registers[5], v.registers[6])
  }

  predicate RangeReadable(fd: uint32, addr: uint32, count: uint32) {
    fd in {1, 2, 4} ==> NoOverlap(addr, count)
  }

  type MemBranch = q: seq<Bytes32> | |q| == 28 witness seq<Bytes32>(28, _ => ZERO32)

  /** The state before a step with its hash, the branches of the instruction and of the touched word,
      and the preimage read. */
  datatype StepWitness = StepWitness(
    state: seq<byte>,
    stateHash: Bytes32,
    memProof: seq<Bytes32>,
    preimageKey: Bytes32,
    preimageValue: seq<byte>,
    preimageOffset: uint32)
  {
    /** Everything in the witness is about the state `v` before the step. The second branch is that of the
        touched word; a step that touches none repeats the branch recorded last. */
    ghost predicate Describes(K: Hasher, oracle: Oracle, v: Vm, oldProof: MemBranch)
      requires Wf(v)
    {
      && state == StateWitness.Witness(MemRoot(K, v.mem), v)
      && stateHash == StateWitness.Commitment(K, MemRoot(K, v.mem), v)
      && memProof == MemProof(K, v.mem, v.cpu.pc) + (if Access(v).Some? then MemProof(K, v.mem, Access(v).value) else oldProof)
      && (if ReadsPreimage(v) && v.preimageOffset != NO_ACCESS then
            preimageKey == v.preimageKey && preimageOffset == v.preimageOffset &&
            preimageValue == Fetch(oracle, v.cache, v.preimageKey).data
          else
            preimageKey == ZERO32 && preimageValue == [] && preimageOffset == 0)
    }
  }

  /** After a step that reads, the cache holds the entry of the key. */
  lemma PreimageCached(oracle: Oracle, v: Vm)
    requires Wf(v) && MipsSpec.Step(oracle, v).Done? && ReadsPreimage(v)
    ensures MipsSpec.Step(oracle, v).vm.cache == Fetch(oracle, v.cache, v.preimageKey)
    ensures MipsSpec.Step(oracle, v).vm.cache.key == v.preimageKey
  {
    hide LoadWord, StoreWord, Word, Overwrite, ReadPreimage;
  }

  class InstrumentedState {
    const oracle: Oracle
    const memory: Memory

    var preimageKey: Bytes32
    var preimageOffset: uint32
    var cpu: Cpu
    var heap: uint32
    var exitCode: byte
    var exited: bool
    var step: uint64
    var registers: Registers
    var lastHint: seq<byte>

    // hints handed to the oracle so far
    var hints: seq<seq<byte>>

    var lastMemAccess: uint32
    var memProofEnabled: bool
    var memProof: MemBranch

    // cached preimage with its length prefix, its key, and the offset read in this step
    var lastPreimage: seq<byte>
    var lastPreimageKey: Bytes32
    var lastPreimageOffset: uint32

    /** The state a step is specified on. */
    ghost function Abs(): Vm
      reads this, memory
    {
      Vm(memory.mem, preimageKey, preimageOffset, cpu, heap, exitCode, exited, step, registers, lastHint,
         Cache(lastPreimageKey, lastPreimage))
    }

    /** The object is in the state an outcome describes, or the step panicked. */
    ghost predicate Ends(o: Outcome, ok: bool, before: seq<seq<byte>>)
      reads this, memory
    {
      if o.Panic? then !ok else ok && Abs() == o.vm && hints == before + o.hints
    }

    constructor (m: Memory, po: Oracle, vm: Vm)
      requires m.mem == vm.mem && vm.cache == FRESH
      ensures memory == m && oracle == po && Abs() == vm && hints == []
    {
      memory, oracle := m, po;
      preimageKey, preimageOffset := vm.preimageKey, vm.preimageOffset;
      cpu, heap, exitCode, exited, step := vm.cpu, vm.heap, vm.exitCode, vm.exited, vm.step;
      registers, lastHint := vm.registers, vm.lastHint;
      hints := [];
      lastMemAccess, memProofEnabled, memProof := 0, false, seq(28, _ => ZERO32);
      lastPreimage, lastPreimageKey, lastPreimageOffset := [], ZERO32, 0;
    }

    // ----- control flow and registers -----

    method HandleJump(linkReg: uint32, dest: uint32) returns (ok: bool)
      requires linkReg < 32
      modifies this`cpu, this`registers
      ensures Ends(Jump(old(Abs()), linkReg, dest), ok, old(hints))
    {
      if cpu.nextPC != Wrap32(cpu.pc + 4) {
        return false;
      }
      var prevPC := cpu.pc;
      cpu := cpu.(pc := cpu.nextPC, nextPC := dest);
      if linkReg != 0 {
        registers := registers[linkReg := Wrap32(prevPC as int + 8)];
      }
      return true;
    }

    method HandleBranch(insn: uint32, rs: uint32) returns (ok: bool)
      modifies this`cpu
      ensures Ends(Branch(old(Abs()), insn, rs), ok, old(hints))
    {
      hide SignedImm, Shl32, Opcode, RtField;
      if cpu.nextPC != Wrap32(cpu.pc + 4) {
        return false;
      }
      var opcode := Opcode(insn);
      var shouldBranch := false;
      if opcode == 4 || opcode == 5 {
        var rt := registers[RtField(insn)];
        shouldBranch := (rs == rt && opcode == 4) || (rs != rt && opcode == 5);
      } else if opcode == 6 {
        shouldBranch := ToSigned(rs) <= 0;
      } else if opcode == 7 {
        shouldBranch := ToSigned(rs) > 0;
      } else if opcode == 1 {
        var rtv := RtField(insn);
        if rtv == 0 {
          shouldBranch := ToSigned(rs) < 0;
        }
        if rtv == 1 {
          shouldBranch := ToSigned(rs) >= 0;
        }
      }
      var prevPC := cpu.pc;
      cpu := cpu.(pc := cpu.nextPC);
      if shouldBranch {
        cpu := cpu.(nextPC := Wrap32(prevPC + 4 + Shl32(SignedImm(insn), 2)));
      } else {
        cpu := cpu.(nextPC := Wrap32(cpu.nextPC + 4));
      }
      return true;
    }

    method HandleRd(storeReg: uint32, val: uint32, conditional: bool)
      requires storeReg < 32
      modifies this`cpu, this`registers
      ensures Ends(WriteBack(old(Abs()), storeReg, val, conditional), true, old(hints))
    {
      if storeReg != 0 && conditional {
        registers := registers[storeReg := val];
      }
      cpu := Advance(cpu);
    }

    method HandleHiLo(fun: uint32, rs: uint32, rt: uint32, storeReg: uint32) returns (ok: bool)
      requires storeReg < 32
      modifies this`cpu, this`registers
      ensures match HiLo(old(cpu), fun, rs, rt)
              case None => !ok
              case Some((x, c)) =>
                ok && cpu == Advance(c) && registers == SetRegister(old(registers), storeReg, x)
    {
      var val := 0;
      match fun {
        case 0x10 => val := cpu.hi;
        case 0x11 => cpu := cpu.(hi := rs);
        case 0x12 => val := cpu.lo;
        case 0x13 => cpu := cpu.(lo := rs);
        case 0x18 =>
          var acc := ToSigned(rs) * ToSigned(rt);
          cpu := cpu.(hi := Wrap32(acc / 0x1_0000_0000));
          cpu := cpu.(lo := Wrap32(acc));
        case 0x19 =>
          var acc: int := rs * rt;
          cpu := cpu.(hi := Wrap32(acc / 0x1_0000_0000));
          cpu := cpu.(lo := Wrap32(acc));
        case 0x1A =>
          if rt == 0 {
            return false;
          }
          cpu := cpu.(hi := Wrap32(Rem(ToSigned(rs), ToSigned(rt))));
          cpu := cpu.(lo := Wrap32(Quot(ToSigned(rs), ToSigned(rt))));
        case 0x1B =>
          if rt == 0 {
            return false;
          }
          cpu := cpu.(hi := Wrap32(rs % rt));
          cpu := cpu.(lo := Wrap32(rs / rt));
        case _ =>
      }
      if storeReg != 0 {
        registers := registers[storeReg := val];
      }
      cpu := Advance(cpu);
      return true;
    }

    // ----- memory -----

    /** What was recorded: the branch of the touched address in the memory `before` the step, if proofs are on. */
    ghost predicate Recorded(touched: Option<uint32>, before: seq<byte>, oldProof: MemBranch)
      requires |before| == MEM_SIZE
      reads this
    {
      if memProofEnabled && touched.Some? then
        lastMemAccess == touched.value && memProof == MemProof(memory.keccak, before, touched.value)
      else
        lastMemAccess == NO_ACCESS && memProof == oldProof
    }

    /** Records an access. A different access already recorded makes the source panic, so that is a precondition. */
    method TrackMemAccess(effAddr: uint32)
      requires memory.Valid() && effAddr % 4 == 0
      requires lastMemAccess == NO_ACCESS || lastMemAccess == effAddr
      modifies this`lastMemAccess, this`memProof, memory`nodes, memory.pages.Values
      ensures memory.Valid() && memory.mem == old(memory.mem) && memory.pages == old(memory.pages)
      ensures if memProofEnabled && old(lastMemAccess) != effAddr then
                lastMemAccess == effAddr && memProof == MemProof(memory.keccak, memory.mem, effAddr)
              else
                lastMemAccess == old(lastMemAccess) && memProof == old(memProof)
    {
      hide Memory.Valid, MemProof;
      if memProofEnabled && lastMemAccess != effAddr {
        assert lastMemAccess == NO_ACCESS;
        lastMemAccess := effAddr;
        memProof := memory.MerkleProof(effAddr);
      }
    }

    method ExecuteInstruction(insn: uint32, rs: uint32, rt: uint32, mem: uint32) returns (r: Option<uint32>)
      ensures r == Alu(insn, Opcode(insn), Fun(insn), rs, rt, mem)
    {
      if Opcode(insn) == 0x1C && Fun(insn) == 0x20 {
        var n := CountLeadingOnes(Not32(rs));
        r := Some(n);
      } else if Opcode(insn) == 0x1C && Fun(insn) == 0x21 {
        var n := CountLeadingOnes(rs);
        r := Some(n);
      } else {
        r := Alu(insn, Opcode(insn), Fun(insn), rs, rt, mem);
      }
    }

    method LoadOperand(addr: uint32) returns (mem: uint32)
      requires memory.Valid() && addr % 4 == 0 && lastMemAccess == NO_ACCESS
      modifies this`lastMemAccess, this`memProof, memory, memory.pages.Values
      ensures memory.Valid() && memory.mem == old(memory.mem) && memory.pages == old(memory.pages)
      ensures Recorded(Some(addr), old(memory.mem), old(memProof))
      ensures mem == LoadWord(memory.mem, addr)
    {
      hide Memory.Valid, MemProof;
      TrackMemAccess(addr);
      mem := memory.GetMemory(addr);
    }

    /** The instructions that do not go through memory or the plain register write-back. */
    method ExecSpecial(insn: uint32, rs: uint32, rt: uint32, ghost val: uint32) returns (ok: bool)
      requires memory.Valid() && IsSpecial(insn)
      modifies this`cpu, this`registers
      ensures Ends(Execute(old(Abs()), insn, rs, rt, val), ok, old(hints))
    {
      hide Memory.Valid;
      var fun, rdReg := Fun(insn), RdField(insn);
      if fun == 0x8 || fun == 0x9 {
        var linkReg := 0;
        if fun == 0x9 {
          linkReg := rdReg;
        }
        ok := HandleJump(linkReg, rs);
        return;
      }
      if fun == 0xA {
        HandleRd(rdReg, rs, rt == 0);
        return true;
      }
      if fun == 0xB {
        HandleRd(rdReg, rs, rt != 0);
        return true;
      }
      ok := HandleHiLo(fun, rs, rt, rdReg);
    }

    method StoreTracked(addr: uint32, val: uint32)
      requires memory.Valid() && addr % 4 == 0 && addr < MEM_SIZE
      requires memProofEnabled ==> lastMemAccess == addr
      requires lastMemAccess == NO_ACCESS || lastMemAccess == addr
      modifies this`lastMemAccess, this`memProof, memory, memory.pages.Values
      ensures memory.Valid() && fresh(memory.pages.Values - old(memory.pages.Values))
      ensures memory.mem == StoreWord(old(memory.mem), addr, val)
      ensures lastMemAccess == old(lastMemAccess) && memProof == old(memProof)
    {
      hide Memory.Valid, MemProof, StoreWord;
      TrackMemAccess(addr);
      memory.SetMemory(addr, val);
    }

    /** Store conditional, memory write and register write-back. */
    method StoreAndWriteBack(insn: uint32, rs: uint32, rt: uint32, val: uint32)
      requires memory.Valid() && !IsSpecial(insn)
      requires IsStore(Opcode(insn)) && memProofEnabled ==> lastMemAccess == Aligned(rs)
      requires lastMemAccess == NO_ACCESS || lastMemAccess == Aligned(rs)
      modifies this`cpu, this`registers, this`lastMemAccess, this`memProof, memory, memory.pages.Values
      ensures memory.Valid() && fresh(memory.pages.Values - old(memory.pages.Values))
      ensures lastMemAccess == old(lastMemAccess) && memProof == old(memProof)
      ensures Ends(Execute(old(Abs()), insn, rs, rt, val), true, old(hints))
    {
      hide Memory.Valid, StoreWord, Opcode, Fun, RtField, Aligned;
      if Opcode(insn) == 0x38 && RtField(insn) != 0 {
        registers := registers[RtField(insn) := 1];
      }
      if IsStore(Opcode(insn)) {
        StoreTracked(Aligned(rs), val);
      }
      HandleRd(Destination(insn), val, true);
    }

    /** Operands, ALU and effect of an instruction that is neither a jump nor a branch. */
    method ExecOther(insn: uint32) returns (ok: bool)
      requires memory.Valid() && lastMemAccess == NO_ACCESS
      modifies this`cpu, this`registers, this`lastMemAccess, this`memProof, memory, memory.pages.Values
      ensures memory.Valid() && fresh(memory.pages.Values - old(memory.pages.Values))
      ensures Recorded(Touched(old(registers), insn), old(memory.mem), old(memProof))
      ensures var v := old(Abs());
              var rs, rt := RsOperand(v.registers, insn), RtOperand(v.registers, insn);
              var o := match Alu(insn, Opcode(insn), Fun(insn), rs, rt, MemOperand(v, insn))
                       case None => Panic
                       case Some(val) => Execute(v, insn, rs, rt, val);
              Ends(o, ok, old(hints))
    {
      hide Memory.Valid, MemProof, StoreWord, LoadWord, Alu, Execute, EffectiveAddress, Opcode, RtOperand, Aligned;
      var rs, rt := registers[RsField(insn)], RtOperand(registers, insn);
      var mem := 0;
      if Opcode(insn) >= 0x20 {
        rs := EffectiveAddress(registers, insn);
        mem := LoadOperand(Aligned(rs));
      }
      var r := ExecuteInstruction(insn, rs, rt, mem);
      if r.None? {
        return false;
      }
      if IsSpecial(insn) {
        ok := ExecSpecial(insn, rs, rt, r.value);
      } else {
        StoreAndWriteBack(insn, rs, rt, r.value);
        ok := true;
      }
    }

    method ExecCoreStep(insn: uint32) returns (ok: bool)
      requires memory.Valid() && lastMemAccess == NO_ACCESS
      modifies this`cpu, this`registers, this`lastMemAccess, this`memProof, memory, memory.pages.Values
      ensures memory.Valid() && fresh(memory.pages.Values - old(memory.pages.Values))
      ensures Recorded(Touched(old(registers), insn), old(memory.mem), old(memProof))
      ensures Ends(CoreStep(old(Abs()), insn), ok, old(hints))
    {
      hide Memory.Valid, MemProof, StoreWord, LoadWord, Alu, Execute, EffectiveAddress, Jump, Branch, Opcode, JumpTarget;
      var opcode := Opcode(insn);
      if opcode == 2 || opcode == 3 {
        var linkReg := 0;
        if opcode == 3 {
          linkReg := 31;
        }
        ok := HandleJump(linkReg, JumpTarget(cpu.nextPC, insn));
      } else if 4 <= opcode < 8 || opcode == 1 {
        ok := HandleBranch(insn, registers[RsField(insn)]);
      } else {
        ok := ExecOther(insn);
      }
    }

    // ----- syscalls -----

    method ReadPreimageData(offset: uint32) returns (dat: Option<seq<byte>>)
      modifies this`lastPreimage, this`lastPreimageKey, this`lastPreimageOffset
      ensures dat == ReadPreimage(oracle, old(Abs()).cache, preimageKey, offset)
      ensures Abs() == old(Abs()).(cache := Fetch(oracle, old(Abs()).cache, preimageKey))
      ensures lastPreimageOffset == offset
    {
      hide PutBE;
      if preimageKey != lastPreimageKey {
        lastPreimageKey := preimageKey;
        var data := oracle(preimageKey);
        var preimage := PutBE(|data| % 0x1_0000_0000_0000_0000, 8);
        preimage := preimage + data;
        lastPreimage := preimage;
      }
      lastPreimageOffset := offset;
      if offset > |lastPreimage| {
        return None;
      }
      return Some(lastPreimage[offset..Min(offset + 32, |lastPreimage|)]);
    }

    method FinishSyscall(v0: uint32, v1: uint32)
      modifies this`cpu, this`registers
      ensures Abs() == Return(old(Abs()), v0, v1)
    {
      registers := registers[2 := v0];
      registers := registers[7 := v1];
      cpu := Advance(cpu);
    }

    /** A read from the preimage descriptor: up to the end of the aligned word. */
    method ReadFromPreimage(addr: uint32, count: uint32) returns (ok: bool, v0: uint32)
      requires memory.Valid() && lastMemAccess == NO_ACCESS
      modifies this`preimageOffset, this`lastPreimage, this`lastPreimageKey, this`lastPreimageOffset
      modifies this`lastMemAccess, this`memProof, memory, memory.pages.Values
      ensures memory.Valid() && fresh(memory.pages.Values - old(memory.pages.Values))
      ensures Recorded(Some(Aligned(addr)), old(memory.mem), old(memProof))
      ensures lastPreimageOffset == old(preimageOffset)
      ensures var o := SysRead(oracle, old(Abs()), 5, addr, count);
              if o.Panic? then !ok else ok && Return(Abs(), v0, 0) == o.vm && o.hints == []
    {
      hide Memory.Valid, MemProof, StoreWord, LoadWord, Fetch, ReadPreimage, Word, PutBE, ReadLength, Overwrite;
      hide Aligned, Wrap32, Return;
      var mem := LoadOperand(Aligned(addr));
      var dat := ReadPreimageData(preimageOffset);
      if dat.None? {
        return false, 0;
      }
      v0 := ReadLength(|dat.value|, addr % 4, count);
      Deliver(addr, mem, dat.value[..v0]);
      preimageOffset := Wrap32(preimageOffset + v0);
      ok := true;
    }

    /** Overwrites the bytes of the word `mem` at an address. */
    method Deliver(addr: uint32, mem: uint32, dat: seq<byte>)
      requires memory.Valid() && addr % 4 + |dat| <= 4 && mem == LoadWord(memory.mem, Aligned(addr))
      modifies memory, memory.pages.Values
      ensures memory.Valid() && fresh(memory.pages.Values - old(memory.pages.Values))
      ensures var word := old(memory.mem)[Aligned(addr)..Aligned(addr) + 4];
              memory.mem == StoreWord(old(memory.mem), Aligned(addr), Word(Overwrite(word, addr % 4, dat)))
    {
      hide Memory.Valid, StoreWord, LoadWord, Word, PutBE, Overwrite;
      LoadedBytes(memory.mem, Aligned(addr));
      var outMem := Overwrite(PutBE(mem, 4), addr % 4, dat);
      memory.SetMemory(Aligned(addr), Word(outMem));
    }

    /** A write to the hint descriptor: buffers the bytes and delivers every complete hint. */
    method WriteHints(addr: uint32, count: uint32) returns (ok: bool)
      requires memory.Valid() && NoOverlap(addr, count)
      modifies this`lastHint, this`hints, memory`lastPageKeys, memory`lastPage
      ensures memory.Valid() && memory.mem == old(memory.mem) && memory.pages == old(memory.pages)
      ensures match Hints.Decode(old(lastHint) + RangeBytes(memory.mem, addr, count))
              case None => !ok
              case Some(d) => ok && lastHint == d.rest && hints == old(hints) + d.hints
    {
      hide Memory.Valid, RangeBytes, Hints.Decode;
      var r := new MemReader(memory, addr, count);
      var hintData := ReadAll(r, (i: nat) => 512);
      var delivered, rest;
      ok, delivered, rest := Hints.ProcessHints(lastHint + hintData);
      hints := hints + delivered;
      lastHint := rest;
    }

    /** A write to the preimage descriptor: shifts up to four bytes into the key. */
    method WriteKey(addr: uint32, count: uint32) returns (v0: uint32)
      requires memory.Valid() && lastMemAccess == NO_ACCESS
      modifies this`preimageKey, this`preimageOffset, this`lastMemAccess, this`memProof, memory, memory.pages.Values
      ensures memory.Valid() && memory.mem == old(memory.mem) && memory.pages == old(memory.pages)
      ensures Recorded(Some(Aligned(addr)), old(memory.mem), old(memProof))
      ensures v0 == Min(count, 4 - addr % 4) && preimageOffset == 0
      ensures preimageKey == ShiftKey(old(preimageKey), memory.mem[addr..addr + v0])
    {
      hide Memory.Valid, MemProof, LoadWord, PutBE;
      var mem := LoadOperand(Aligned(addr));
      LoadedBytes(memory.mem, Aligned(addr));
      v0 := Min(count, 4 - addr % 4);
      var tmp := PutBE(mem, 4);
      InsideWord(memory.mem, addr, v0);
      preimageKey := preimageKey[v0..] + tmp[addr % 4..addr % 4 + v0];
      preimageOffset := 0;
    }

    method HandleSysRead(fd: uint32, addr: uint32, count: uint32) returns (ok: bool)
      requires memory.Valid() && lastMemAccess == NO_ACCESS
      modifies this`cpu, this`registers
      modifies this`preimageOffset, this`lastPreimage, this`lastPreimageKey, this`lastPreimageOffset
      modifies this`lastMemAccess, this`memProof, memory, memory.pages.Values
      ensures memory.Valid() && fresh(memory.pages.Values - old(memory.pages.Values))
      ensures Recorded(if fd == 5 then Some(Aligned(addr)) else None, old(memory.mem), old(memProof))
      ensures lastPreimageOffset == if fd == 5 then old(preimageOffset) else old(lastPreimageOffset)
      ensures Ends(SysRead(oracle, old(Abs()), fd, addr, count), ok, old(hints))
    {
      hide Memory.Valid, MemProof, StoreWord, Fetch, ReadPreimage, Word, Overwrite;
      var v0, v1 := 0, 0;
      ok := true;
      match fd {
        case 0 =>
        case 5 =>
          ok, v0 := ReadFromPreimage(addr, count);
          if !ok {
            return;
          }
        case 3 => v0 := count;
        case _ => v0, v1 := ERROR, EBADF;
      }
      FinishSyscall(v0, v1);
    }

    /** A write on any descriptor, up to its results. */
    method WriteTo(fd: uint32, addr: uint32, count: uint32) returns (ok: bool, v0: uint32, v1: uint32)
      requires memory.Valid() && lastMemAccess == NO_ACCESS && RangeReadable(fd, addr, count)
      modifies this`preimageKey, this`preimageOffset, this`lastHint, this`hints
      modifies this`lastMemAccess, this`memProof, memory, memory.pages.Values
      ensures memory.Valid() && memory.pages == old(memory.pages)
      ensures Recorded(if fd == 6 then Some(Aligned(addr)) else None, old(memory.mem), old(memProof))
      ensures var o := SysWrite(old(Abs()), fd, addr, count);
              if o.Panic? then !ok else ok && Return(Abs(), v0, v1) == o.vm && hints == old(hints) + o.hints
    {
      hide Memory.Valid, MemProof, RangeBytes, Hints.Decode, ShiftKey, Aligned, Advance;
      ok, v0, v1 := true, count, 0;
      match fd {
        case 1 =>
        case 2 =>
        case 4 => ok := WriteHints(addr, count);
        case 6 => v0 := WriteKey(addr, count);
        case _ => v0, v1 := ERROR, EBADF;
      }
    }

    method HandleSysWrite(fd: uint32, addr: uint32, count: uint32) returns (ok: bool)
      requires memory.Valid() && lastMemAccess == NO_ACCESS && RangeReadable(fd, addr, count)
      modifies this`cpu, this`registers, this`preimageKey, this`preimageOffset, this`lastHint, this`hints
      modifies this`lastMemAccess, this`memProof, memory, memory.pages.Values
      ensures memory.Valid() && memory.pages == old(memory.pages)
      ensures Recorded(if fd == 6 then Some(Aligned(addr)) else None, old(memory.mem), old(memProof))
      ensures Ends(SysWrite(old(Abs()), fd, addr, count), ok, old(hints))
    {
      hide Memory.Valid, MemProof, SysWrite, Aligned, Return, RangeReadable;
      var v0, v1;
      ok, v0, v1 := WriteTo(fd, addr, count);
      if ok {
        FinishSyscall(v0, v1);
      }
    }

    /** Every system call but read and write. */
    method HandlePlainSyscall()
      modifies this`cpu, this`registers, this`heap, this`exited, this`exitCode
      ensures Ends(PlainSyscall(old(Abs())), true, old(hints))
    {
      hide Mmap, Fcntl, Return;
      var num, a0, a1 := registers[2], registers[4], registers[5];
      if num == SYS_MMAP {
        var (v0, newHeap) := Mmap(a0, a1, heap);
        heap := newHeap;
        FinishSyscall(v0, 0);
      } else if num == SYS_BRK {
        FinishSyscall(0x4000_0000, 0);
      } else if num == SYS_CLONE {
        FinishSyscall(1, 0);
      } else if num == SYS_EXIT_GROUP {
        exited := true;
        exitCode := a0 % 0x100;
      } else if num == SYS_FCNTL {
        var (v0, v1) := Fcntl(a0, a1);
        FinishSyscall(v0, v1);
      } else {
        FinishSyscall(0, 0);
      }
    }

    method HandleSyscall() returns (ok: bool)
      requires memory.Valid() && lastMemAccess == NO_ACCESS
      requires registers[2] == SYS_WRITE ==> RangeReadable(registers[4], registers[5], registers[6])
      modifies this, memory, memory.pages.Values
      ensures memory.Valid() && fresh(memory.pages.Values - old(memory.pages.Values))
      ensures memProofEnabled == old(memProofEnabled)
      ensures Recorded(SyscallAccess(old(registers)), old(memory.mem), old(memProof))
      ensures lastPreimageOffset == if old(registers[2] == SYS_READ && registers[4] == 5) then old(preimageOffset) else old(lastPreimageOffset)
      ensures Ends(Syscall(oracle, old(Abs())), ok, old(hints))
    {
      hide Memory.Valid, MemProof, SysRead, SysWrite, PlainSyscall, Aligned, RangeReadable;
      var num, a0, a1, a2 := registers[2], registers[4], registers[5], registers[6];
      ok := true;
      if num == SYS_READ {
        ok := HandleSysRead(a0, a1, a2);
      } else if num == SYS_WRITE {
        ok := HandleSysWrite(a0, a1, a2);
      } else {
        HandlePlainSyscall();
      }
    }

    method MipsStep() returns (ok: bool)
      requires memory.Valid() && lastMemAccess == NO_ACCESS && ReadableRange(Abs())
      modifies this, memory, memory.pages.Values
      ensures memory.Valid() && fresh(memory.pages.Values - old(memory.pages.Values))
      ensures memProofEnabled == old(memProofEnabled)
      ensures Recorded(Access(old(Abs())), old(memory.mem), old(memProof))
      ensures lastPreimageOffset == if ReadsPreimage(old(Abs())) then old(preimageOffset) else old(lastPreimageOffset)
      ensures Ends(MipsSpec.Step(oracle, old(Abs())), ok, old(hints))
    {
      hide Memory.Valid, MemProof, Syscall, CoreStep, LoadWord, IsSyscall;
      if exited {
        return true;
      }
      step := (step + 1) % 0x1_0000_0000_0000_0000;
      if cpu.pc % 4 != 0 {
        return false;
      }
      var insn := memory.GetMemory(cpu.pc);
      if IsSyscall(insn) {
        ok := HandleSyscall();
      } else {
        ok := ExecCoreStep(insn);
      }
    }

    /** Encodes the state, asking the memory for its root. */
    method EncodeState() returns (out: seq<byte>, h: Bytes32)
      requires memory.Valid()
      modifies memory`nodes, memory.pages.Values
      ensures memory.Valid() && memory.mem == old(memory.mem) && memory.pages == old(memory.pages)
      ensures out == StateWitness.Witness(MemRoot(memory.keccak, memory.mem), Abs()) && |out| == 226
      ensures h == StateWitness.Commitment(memory.keccak, MemRoot(memory.keccak, memory.mem), Abs())
    {
      hide Memory.Valid, MemRoot, StateWitness.Witness, StateWitness.Commitment;
      var root := memory.MerkleRoot();
      ghost var v := Abs();
      out, h := StateWitness.EncodeWitness(memory.keccak, root, ScalarState());
      StateWitness.MemoryNotEncoded(memory.keccak, root, ScalarState(), v);
    }

    /** The state without its memory, hints and caches. */
    function ScalarState(): Vm
      reads this
    {
      Vm([], preimageKey, preimageOffset, cpu, heap, exitCode, exited, step, registers, [], FRESH)
    }

    /** One step. With `proof` it also returns what is needed to check the step against the state before it. */
    method Step(proof: bool) returns (ok: bool, wit: Option<StepWitness>)
      requires memory.Valid() && ReadableRange(Abs())
      modifies this, memory, memory.pages.Values
      ensures memory.Valid() && fresh(memory.pages.Values - old(memory.pages.Values))
      ensures Ends(MipsSpec.Step(oracle, old(Abs())), ok, old(hints))
      ensures wit.Some? <==> ok && proof
      ensures wit.Some? ==> wit.value.Describes(memory.keccak, oracle, old(Abs()), old(memProof))
    {
      hide Memory.Valid, MemProof, MipsSpec.Step, Access, StateWitness.Witness, StateWitness.Commitment, MemRoot;
      hide ReadableRange;
      memProofEnabled := proof;
      lastMemAccess := NO_ACCESS;
      lastPreimageOffset := NO_ACCESS;
      wit := None;
      var w := StepWitness([], ZERO32, [], ZERO32, [], 0);
      if proof {
        var insnProof := memory.MerkleProof(cpu.pc);
        var state, stateHash := EncodeState();
        w := w.(state := state, stateHash := stateHash, memProof := insnProof);
      }
      assert Abs() == old(Abs());
      ok := MipsStep();
      if !ok {
        return;
      }
      if proof {
        w := w.(memProof := w.memProof + memProof);
        if lastPreimageOffset != NO_ACCESS {
          w := w.(preimageOffset := lastPreimageOffset, preimageKey := lastPreimageKey, preimageValue := lastPreimage);
        }
        if ReadsPreimage(old(Abs())) {
          PreimageCached(oracle, old(Abs()));
        }
        wit := Some(w);
      }
    }
  }
}
