/** One step of the MIPS machine over a flat memory, as a function
    (cannon/mipsevm/mips.go, mips_instructions.go and mips_syscalls.go). */
module MipsSpec {
  import opened Words
  import opened Bits
  import opened MipsAlu
  import opened Merkle
  import opened MemoryTree
  import opened Preimages
  import Hints

  datatype Cpu = Cpu(pc: uint32, nextPC: uint32, lo: uint32, hi: uint32)

  type Registers = r: seq<uint32> | |r| == 32 witness seq(32, _ => 0)

  /** The VM state, and the one-entry preimage cache beside it. */
  datatype Vm = Vm(
    mem: seq<byte>,
    preimageKey: Bytes32,
    preimageOffset: uint32,
    cpu: Cpu,
    heap: uint32,
    exitCode: byte,
    exited: bool,
    step: uint64,
    registers: Registers,
    lastHint: seq<byte>,
    cache: Cache)

  predicate Wf(v: Vm) {
    |v.mem| == MEM_SIZE
  }

  /** The states agree on everything that is encoded: all but memory, buffered hint bytes and cached preimage. */
  predicate SameEncoded(v: Vm, w: Vm) {
    v.(mem := w.mem, lastHint := w.lastHint, cache := w.cache) == w
  }

  /** A step ends in a new state and delivers hints, or the source panics. */
  datatype Outcome = Panic | Done(vm: Vm, hints: seq<seq<byte>>)

  // ----- instruction fields -----

  function Opcode(insn: uint32): uint32 {
    insn / 0x400_0000
  }

  function Fun(insn: uint32): uint32 {
    insn % 0x40
  }

  function RsField(insn: uint32): (r: uint32)
    ensures r < 32
  {
    insn / 0x20_0000 % 0x20
  }

  function RtField(insn: uint32): (r: uint32)
    ensures r < 32
  {
    insn / 0x1_0000 % 0x20
  }

  function RdField(insn: uint32): (r: uint32)
    ensures r < 32
  {
    insn / 0x800 % 0x20
  }

  function SignedImm(insn: uint32): uint32 {
    SignExtend(insn % 0x1_0000, 16)
  }

  // ----- control flow -----

  function Advance(cpu: Cpu): Cpu {
    cpu.(pc := cpu.nextPC, nextPC := Wrap32(cpu.nextPC + 4))
  }

  /** Register 0 is never written. */
  function SetRegister(r: Registers, i: uint32, v: uint32): Registers
    requires i < 32
  {
    if i == 0 then r else r[i := v]
  }

  predicate InDelaySlot(cpu: Cpu) {
    cpu.nextPC != Wrap32(cpu.pc + 4)
  }

  function Jump(v: Vm, linkReg: uint32, dest: uint32): Outcome
    requires linkReg < 32
  {
    if InDelaySlot(v.cpu) then Panic
    else
      Done(v.(cpu := v.cpu.(pc := v.cpu.nextPC, nextPC := dest),
              registers := SetRegister(v.registers, linkReg, Wrap32(v.cpu.pc + 8))), [])
  }

  predicate Taken(v: Vm, insn: uint32, rs: uint32) {
    var opcode, rt := Opcode(insn), v.registers[RtField(insn)];
    match opcode
    case 4 => rs == rt                      // beq
    case 5 => rs != rt                      // bne
    case 6 => ToSigned(rs) <= 0             // blez
    case 7 => ToSigned(rs) > 0              // bgtz
    case 1 => (RtField(insn) == 0 && ToSigned(rs) < 0) || (RtField(insn) == 1 && ToSigned(rs) >= 0)  // bltz, bgez
    case _ => false
  }

  function Branch(v: Vm, insn: uint32, rs: uint32): Outcome {
    if InDelaySlot(v.cpu) then Panic
    else
      var target := Wrap32(v.cpu.pc + 4 + Shl32(SignedImm(insn), 2));
      Done(v.(cpu := v.cpu.(pc := v.cpu.nextPC,
                            nextPC := if Taken(v, insn, rs) then target else Wrap32(v.cpu.nextPC + 4))), [])
  }

  function WriteBack(v: Vm, storeReg: uint32, val: uint32, conditional: bool): Outcome
    requires storeReg < 32
  {
    Done(v.(registers := if conditional then SetRegister(v.registers, storeReg, val) else v.registers,
            cpu := Advance(v.cpu)), [])
  }

  // ----- hi and lo -----

  function Abs(x: int): nat {
    if x < 0 then -x else x
  }

  function Div(x: nat, y: nat): nat
    requires y > 0
  {
    x / y
  }

  /** Division that truncates towards zero. */
  function Quot(a: int, b: int): int
    requires b != 0
  {
    var q: int := Div(Abs(a), Abs(b));
    if (a < 0) == (b < 0) then q else -q
  }

  function Rem(a: int, b: int): int
    requires b != 0
  {
    a - b * Quot(a, b)
  }

  /** The value for the destination register and the new hi and lo, or None on division by zero. */
  function HiLo(cpu: Cpu, fun: uint32, rs: uint32, rt: uint32): Option<(uint32, Cpu)> {
    match fun
    case 0x10 => Some((cpu.hi, cpu))
    case 0x11 => Some((0, cpu.(hi := rs)))
    case 0x12 => Some((cpu.lo, cpu))
    case 0x13 => Some((0, cpu.(lo := rs)))
    case 0x18 =>
      var acc := ToSigned(rs) * ToSigned(rt);
      Some((0, cpu.(hi := Wrap32(acc / 0x1_0000_0000), lo := Wrap32(acc))))
    case 0x19 =>
      Some((0, cpu.(hi := Wrap32(rs * rt / 0x1_0000_0000), lo := Wrap32(rs * rt))))
    case 0x1A =>
      if rt == 0 then None
      else Some((0, cpu.(hi := Wrap32(Rem(ToSigned(rs), ToSigned(rt))), lo := Wrap32(Quot(ToSigned(rs), ToSigned(rt))))))
    case 0x1B =>
      if rt == 0 then None else Some((0, cpu.(hi := Wrap32(rs % rt), lo := Wrap32(rs / rt))))
    case _ => Some((0, cpu))
  }

  // ----- operands -----

  function RtOperand(r: Registers, insn: uint32): uint32 {
    var opcode := Opcode(insn);
    if opcode == 0 || opcode == 0x1C then r[RtField(insn)]
    else if opcode < 0x20 then
      if opcode == 0xC || opcode == 0xD || opcode == 0xE then insn % 0x1_0000 else SignedImm(insn)
    else if opcode >= 0x28 || opcode == 0x22 || opcode == 0x26 then r[RtField(insn)]
    else 0
  }

  predicate IsStore(opcode: uint32) {
    opcode >= 0x28 && opcode != 0x30
  }

  function Destination(insn: uint32): (reg: uint32)
    ensures reg < 32
  {
    var opcode := Opcode(insn);
    if opcode == 0 || opcode == 0x1C then RdField(insn)
    else if IsStore(opcode) then 0
    else RtField(insn)
  }

  /** Base register plus offset. */
  function EffectiveAddress(r: Registers, insn: uint32): uint32 {
    Wrap32(r[RsField(insn)] + SignedImm(insn))
  }

  function Aligned(a: uint32): (r: uint32)
    ensures r % 4 == 0 && r + 4 <= MEM_SIZE
  {
    a - a % 4
  }

  lemma InsideWord(mem: seq<byte>, addr: uint32, n: nat)
    requires |mem| == MEM_SIZE && n <= 4 - addr % 4
    ensures mem[addr..addr + n] == mem[Aligned(addr)..Aligned(addr) + 4][addr % 4..addr % 4 + n]
  {
    SliceOfSlice(mem, Aligned(addr), Aligned(addr) + 4, addr % 4, addr % 4 + n);
  }

  /** The 26-bit target inside the 256 MB region of the delay slot. */
  function JumpTarget(nextPC: uint32, insn: uint32): uint32 {
    Or32(nextPC / 0x1000_0000 * 0x1000_0000, insn % 0x400_0000 * 4)
  }

  /** The value of the first operand: the effective address for loads and stores. */
  function RsOperand(r: Registers, insn: uint32): uint32 {
    if Opcode(insn) >= 0x20 then EffectiveAddress(r, insn) else r[RsField(insn)]
  }

  function MemOperand(v: Vm, insn: uint32): uint32
    requires Wf(v)
  {
    if Opcode(insn) >= 0x20 then LoadWord(v.mem, Aligned(EffectiveAddress(v.registers, insn))) else 0
  }

  // ----- everything but syscalls -----

  function CoreStep(v: Vm, insn: uint32): Outcome
    requires Wf(v)
  {
    var opcode := Opcode(insn);
    if opcode == 2 || opcode == 3 then
      Jump(v, if opcode == 3 then 31 else 0, JumpTarget(v.cpu.nextPC, insn))
    else if 4 <= opcode < 8 || opcode == 1 then
      Branch(v, insn, v.registers[RsField(insn)])
    else
      var rs, rt := RsOperand(v.registers, insn), RtOperand(v.registers, insn);
      match Alu(insn, opcode, Fun(insn), rs, rt, MemOperand(v, insn))
      case None => Panic
      case Some(val) => Execute(v, insn, rs, rt, val)
  }

  /** The effect of an instruction whose ALU result is `val`. */
  function Execute(v: Vm, insn: uint32, rs: uint32, rt: uint32, val: uint32): Outcome
    requires Wf(v)
  {
    var opcode, fun, rd := Opcode(insn), Fun(insn), Destination(insn);
    if opcode == 0 && (fun == 0x8 || fun == 0x9) then Jump(v, if fun == 0x9 then rd else 0, rs)
    else if opcode == 0 && fun == 0xA then WriteBack(v, rd, rs, rt == 0)
    else if opcode == 0 && fun == 0xB then WriteBack(v, rd, rs, rt != 0)
    else if opcode == 0 && 0x10 <= fun < 0x1C then
      match HiLo(v.cpu, fun, rs, rt)
      case None => Panic
      case Some((x, cpu)) => Done(v.(registers := SetRegister(v.registers, rd, x), cpu := Advance(cpu)), [])
    else
      var r := if opcode == 0x38 then SetRegister(v.registers, RtField(insn), 1) else v.registers;
      var m := if IsStore(opcode) then StoreWord(v.mem, Aligned(rs), val) else v.mem;
      WriteBack(v.(registers := r, mem := m), rd, val, true)
  }

  // ----- syscalls -----

  const SYS_MMAP := 4090
  const SYS_BRK := 4045
  const SYS_CLONE := 4120
  const SYS_EXIT_GROUP := 4246
  const SYS_READ := 4003
  const SYS_WRITE := 4004
  const SYS_FCNTL := 4055

  const ERROR: uint32 := 0xFFFF_FFFF
  const EBADF: uint32 := 0x9
  const EINVAL: uint32 := 0x16

  /** Results go to registers 2 and 7. */
  function Return(v: Vm, v0: uint32, v1: uint32): Vm {
    v.(registers := v.registers[2 := v0][7 := v1], cpu := Advance(v.cpu))
  }

  /** Sizes are rounded up to whole pages; without an address hint the heap grows. */
  function Mmap(a0: uint32, a1: uint32, heap: uint32): (uint32, uint32) {
    var sz := if a1 % 4096 != 0 then Wrap32(a1 + (4096 - a1 % 4096)) else a1;
    if a0 == 0 then (heap, Wrap32(heap + sz)) else (a0, heap)
  }

  function Fcntl(a0: uint32, a1: uint32): (uint32, uint32) {
    if a1 != 3 then (ERROR, EINVAL)
    else if a0 in {0, 5, 3} then (0, 0)
    else if a0 in {1, 2, 6, 4} then (1, 0)
    else (ERROR, EBADF)
  }

  function SysRead(oracle: Oracle, v: Vm, fd: uint32, addr: uint32, count: uint32): Outcome
    requires Wf(v)
  {
    if fd == 0 then Done(Return(v, 0, 0), [])
    else if fd == 5 then
      var word := v.mem[Aligned(addr)..Aligned(addr) + 4];
      match ReadPreimage(oracle, v.cache, v.preimageKey, v.preimageOffset)
      case None => Panic
      case Some(dat) =>
        var n := ReadLength(|dat|, addr % 4, count);
        var mem := StoreWord(v.mem, Aligned(addr), Word(Overwrite(word, addr % 4, dat[..n])));
        Done(Return(v.(mem := mem, preimageOffset := Wrap32(v.preimageOffset + n),
                       cache := Fetch(oracle, v.cache, v.preimageKey)), n, 0), [])
    else if fd == 3 then Done(Return(v, count, 0), [])
    else Done(Return(v, ERROR, EBADF), [])
  }

  function SysWrite(v: Vm, fd: uint32, addr: uint32, count: uint32): Outcome
    requires Wf(v)
  {
    if fd == 1 || fd == 2 then Done(Return(v, count, 0), [])
    else if fd == 4 then
      match Hints.Decode(v.lastHint + RangeBytes(v.mem, addr, count))
      case None => Panic
      case Some(d) => Done(Return(v.(lastHint := d.rest), count, 0), d.hints)
    else if fd == 6 then
      var n := Min(count, 4 - addr % 4);
      var bytes := v.mem[addr..addr + n];
      Done(Return(v.(preimageKey := ShiftKey(v.preimageKey, bytes), preimageOffset := 0), n, 0), [])
    else Done(Return(v, ERROR, EBADF), [])
  }

  /** Every system call but read and write. */
  function PlainSyscall(v: Vm): Outcome {
    var num, a0, a1 := v.registers[2], v.registers[4], v.registers[5];
    if num == SYS_MMAP then
      var (v0, heap) := Mmap(a0, a1, v.heap);
      Done(Return(v.(heap := heap), v0, 0), [])
    else if num == SYS_BRK then Done(Return(v, 0x4000_0000, 0), [])
    else if num == SYS_CLONE then Done(Return(v, 1, 0), [])
    else if num == SYS_EXIT_GROUP then Done(v.(exited := true, exitCode := a0 % 0x100), [])
    else if num == SYS_FCNTL then
      var (v0, v1) := Fcntl(a0, a1);
      Done(Return(v, v0, v1), [])
    else Done(Return(v, 0, 0), [])
  }

  function Syscall(oracle: Oracle, v: Vm): Outcome
    requires Wf(v)
  {
    var num, a0, a1, a2 := v.registers[2], v.registers[4], v.registers[5], v.registers[6];
    if num == SYS_READ then SysRead(oracle, v, a0, a1, a2)
    else if num == SYS_WRITE then SysWrite(v, a0, a1, a2)
    else PlainSyscall(v)
  }

  // ----- one step -----

  predicate IsSyscall(insn: uint32) {
    Opcode(insn) == 0 && Fun(insn) == 0xC
  }

  function Step(oracle: Oracle, v: Vm): Outcome
    requires Wf(v)
  {
    if v.exited then Done(v, [])
    else if v.cpu.pc % 4 != 0 then Panic
    else
      var v1 := v.(step := (v.step + 1) % 0x1_0000_0000_0000_0000);
      var insn := LoadWord(v.mem, v.cpu.pc);
      if IsSyscall(insn) then Syscall(oracle, v1) else CoreStep(v1, insn)
  }

  /** The step is the given syscall, on the given descriptor. */
  predicate Calls(v: Vm, num: uint32, fd: uint32)
    requires Wf(v)
  {
    !v.exited && v.cpu.pc % 4 == 0 && IsSyscall(LoadWord(v.mem, v.cpu.pc)) && v.registers[2] == num && v.registers[4] == fd
  }

  predicate ReadsPreimage(v: Vm)
    requires Wf(v)
  {
    Calls(v, SYS_READ, 5)
  }

  /** The bytes the step appends to the hint buffer. */
  function HintBytes(v: Vm): seq<byte>
    requires Wf(v)
  {
    if Calls(v, SYS_WRITE, 4) then RangeBytes(v.mem, v.registers[5], v.registers[6]) else []
  }

  /** The step panics over the hint buffer. */
  predicate HintsPanic(v: Vm)
    requires Wf(v)
  {
    Calls(v, SYS_WRITE, 4) && Hints.Decode(v.lastHint + HintBytes(v)).None?
  }

  /** The aligned address a syscall touches, if any. */
  function SyscallAccess(r: Registers): Option<uint32> {
    if (r[2] == SYS_READ && r[4] == 5) || (r[2] == SYS_WRITE && r[4] == 6) then Some(Aligned(r[5])) else None
  }

  /** The address a load or store touches. */
  function Touched(r: Registers, insn: uint32): Option<uint32> {
    if Opcode(insn) >= 0x20 then Some(Aligned(EffectiveAddress(r, insn))) else None
  }

  /** The aligned address a step reads or writes besides its instruction, if any. */
  function Access(v: Vm): Option<uint32>
    requires Wf(v)
  {
    if v.exited || v.cpu.pc % 4 != 0 then None
    else
      var insn := LoadWord(v.mem, v.cpu.pc);
      if IsSyscall(insn) then SyscallAccess(v.registers) else Touched(v.registers, insn)
  }
}
