/** What every step of the machine keeps, and what a step depends on. */
module MipsStepLaws {
  import opened Words
  import opened Merkle
  import opened MerkleProofs
  import opened MemoryTree
  import opened MipsAlu
  import opened MipsSpec
  import opened Preimages
  import Hints

  /** What a step may do to the memory: write one word at `access`, or nothing. */
  ghost predicate WritesAt(mem: seq<byte>, mem': seq<byte>, access: Option<uint32>) {
    |mem| == |mem'| == MEM_SIZE &&
    match access
    case None => mem' == mem
    case Some(a) => a % 4 == 0 && a + 4 <= MEM_SIZE && mem' == StoreWord(mem, a, LoadWord(mem', a))
  }

  lemma StoreThenLoad(mem: seq<byte>, a: nat, x: uint32)
    requires |mem| == MEM_SIZE && a % 4 == 0 && a + 4 <= |mem|
    ensures LoadWord(StoreWord(mem, a, x), a) == x
  {
    WordRoundTrip(x);
    assert StoreWord(mem, a, x)[a..a + 4] == PutBE(x, 4);
  }

  lemma StoreLoaded(mem: seq<byte>, a: nat)
    requires |mem| == MEM_SIZE && a % 4 == 0 && a + 4 <= |mem|
    ensures StoreWord(mem, a, LoadWord(mem, a)) == mem
  {
    LoadedBytes(mem, a);
    assert mem == mem[..a] + mem[a..a + 4] + mem[a + 4..];
  }

  // ----- what a step keeps -----

  lemma CoreStepKeeps(v: Vm, insn: uint32)
    requires Wf(v) && CoreStep(v, insn).Done?
    ensures var o := CoreStep(v, insn);
            o.hints == [] && o.vm.registers[0] == v.registers[0] && WritesAt(v.mem, o.vm.mem, Touched(v.registers, insn))
  {
    hide LoadWord, StoreWord, Alu, HiLo, JumpTarget, SignedImm, Taken, EffectiveAddress, RtOperand;
    var opcode := Opcode(insn);
    if opcode >= 0x20 {
      var a := Aligned(EffectiveAddress(v.registers, insn));
      StoreLoaded(v.mem, a);
      var val := Alu(insn, opcode, Fun(insn), RsOperand(v.registers, insn), RtOperand(v.registers, insn),
                     MemOperand(v, insn)).value;
      StoreThenLoad(v.mem, a, val);
    }
  }

  lemma SyscallKeeps(oracle: Oracle, v: Vm)
    requires Wf(v) && Syscall(oracle, v).Done?
    ensures var o := Syscall(oracle, v);
            o.vm.registers[0] == v.registers[0] && WritesAt(v.mem, o.vm.mem, SyscallAccess(v.registers))
  {
    hide LoadWord, StoreWord, Word, Overwrite, ReadPreimage, Fetch, RangeBytes, Hints.Decode, Mmap, Fcntl, ShiftKey;
    var a := Aligned(v.registers[5]);
    StoreLoaded(v.mem, a);
    if v.registers[2] == SYS_READ && v.registers[4] == 5 {
      var dat := ReadPreimage(oracle, v.cache, v.preimageKey, v.preimageOffset).value;
      var n := ReadLength(|dat|, v.registers[5] % 4, v.registers[6]);
      StoreThenLoad(v.mem, a, Word(Overwrite(v.mem[a..a + 4], v.registers[5] % 4, dat[..n])));
    }
  }

  /** A step writes at most the one word it declares, never changes register 0, and counts itself. */
  lemma StepKeeps(oracle: Oracle, v: Vm)
    requires Wf(v) && Step(oracle, v).Done?
    ensures var o := Step(oracle, v);
            Wf(o.vm) && o.vm.registers[0] == v.registers[0] && WritesAt(v.mem, o.vm.mem, Access(v))
    ensures v.exited ==> Step(oracle, v) == Done(v, [])
  {
    hide CoreStep, Syscall, LoadWord, StoreWord;
    if !v.exited {
      var v1 := v.(step := (v.step + 1) % 0x1_0000_0000_0000_0000);
      if IsSyscall(LoadWord(v.mem, v.cpu.pc)) {
        SyscallKeeps(oracle, v1);
      } else {
        CoreStepKeeps(v1, LoadWord(v.mem, v.cpu.pc));
      }
    }
  }

  // ----- what a step depends on -----

  /** The memories hold the same word at `access`. */
  ghost predicate AgreeAt(m: seq<byte>, n: seq<byte>, access: Option<uint32>) {
    |m| == |n| == MEM_SIZE &&
    (access.Some? ==> access.value % 4 == 0 && access.value + 4 <= MEM_SIZE && LoadWord(m, access.value) == LoadWord(n, access.value))
  }

  /** Both panic, or both end in states that are encoded alike and hold the same touched word. */
  ghost predicate SameEffect(o: Outcome, p: Outcome, access: Option<uint32>) {
    match (o, p)
    case (Done(v, _), Done(w, _)) => SameEncoded(v, w) && AgreeAt(v.mem, w.mem, access)
    case (Panic, Panic) => true
    case _ => false
  }

  lemma CoreStepIsLocal(v: Vm, w: Vm, insn: uint32)
    requires Wf(v) && Wf(w) && SameEncoded(v, w) && AgreeAt(v.mem, w.mem, Touched(v.registers, insn))
    ensures SameEffect(CoreStep(v, insn), CoreStep(w, insn), Touched(v.registers, insn))
  {
    hide LoadWord, StoreWord, Alu, HiLo, JumpTarget, SignedImm, EffectiveAddress, RtOperand;
    assert forall rs :: Taken(v, insn, rs) == Taken(w, insn, rs);
    if Opcode(insn) >= 0x20 {
      var a := Aligned(EffectiveAddress(v.registers, insn));
      assert MemOperand(v, insn) == MemOperand(w, insn);
      var r := Alu(insn, Opcode(insn), Fun(insn), RsOperand(v.registers, insn), RtOperand(v.registers, insn),
                   MemOperand(v, insn));
      if r.Some? {
        StoreThenLoad(v.mem, a, r.value);
        StoreThenLoad(w.mem, a, r.value);
      }
    }
  }

  /** Both find the same bytes for the key. */
  predicate SamePreimage(oracle: Oracle, v: Vm, oracle': Oracle, w: Vm) {
    Fetch(oracle, v.cache, v.preimageKey).data == Fetch(oracle', w.cache, w.preimageKey).data
  }

  lemma SyscallIsLocal(oracle: Oracle, v: Vm, oracle': Oracle, w: Vm)
    requires Wf(v) && Wf(w) && SameEncoded(v, w) && AgreeAt(v.mem, w.mem, SyscallAccess(v.registers))
    requires v.registers[2] == SYS_READ && v.registers[4] == 5 ==> SamePreimage(oracle, v, oracle', w)
    requires !(v.registers[2] == SYS_WRITE && v.registers[4] == 4)
    ensures SameEffect(Syscall(oracle, v), Syscall(oracle', w), SyscallAccess(v.registers))
  {
    hide LoadWord, StoreWord, Word, Overwrite, Fetch, RangeBytes, Hints.Decode, Mmap, Fcntl, ShiftKey;
    var addr := v.registers[5];
    var a := Aligned(addr);
    if SyscallAccess(v.registers).Some? {
      LoadedBytes(v.mem, a);
      LoadedBytes(w.mem, a);
      assert v.mem[a..a + 4] == w.mem[a..a + 4];
      if v.registers[2] == SYS_WRITE {
        var n := Min(v.registers[6], 4 - addr % 4);
        InsideWord(v.mem, addr, n);
        InsideWord(w.mem, addr, n);
      } else {
        var r := ReadPreimage(oracle, v.cache, v.preimageKey, v.preimageOffset);
        assert r == ReadPreimage(oracle', w.cache, w.preimageKey, w.preimageOffset);
        if r.Some? {
          var n := ReadLength(|r.value|, addr % 4, v.registers[6]);
          var x := Word(Overwrite(v.mem[a..a + 4], addr % 4, r.value[..n]));
          StoreThenLoad(v.mem, a, x);
          StoreThenLoad(w.mem, a, x);
        }
      }
    }
  }

  /** A hint write returns the same results whatever is buffered, unless the buffer makes it panic. */
  lemma HintWriteIsLocal(oracle: Oracle, v: Vm, oracle': Oracle, w: Vm)
    requires Wf(v) && Wf(w) && SameEncoded(v, w) && v.registers[2] == SYS_WRITE && v.registers[4] == 4
    ensures Syscall(oracle, v).Panic?
       <==> Hints.Decode(v.lastHint + RangeBytes(v.mem, v.registers[5], v.registers[6])).None?
    ensures Syscall(oracle, v).Done? && Syscall(oracle', w).Done? ==>
              SameEffect(Syscall(oracle, v), Syscall(oracle', w), None)
  {
    hide LoadWord, RangeBytes, Hints.Decode;
  }

  /** All a step needs: the encoded state, the instruction word, the touched word, and the preimage if it reads one.
      Two machines that agree on these have the same effect exactly if the hint buffer makes both panic or neither. */
  lemma StepIsLocal(oracle: Oracle, v: Vm, oracle': Oracle, w: Vm)
    requires Wf(v) && Wf(w) && SameEncoded(v, w)
    requires AgreeAt(v.mem, w.mem, if v.cpu.pc % 4 == 0 then Some(v.cpu.pc) else None)
    requires AgreeAt(v.mem, w.mem, Access(v))
    requires ReadsPreimage(v) ==> SamePreimage(oracle, v, oracle', w)
    ensures Access(w) == Access(v)
    ensures SameEffect(Step(oracle, v), Step(oracle', w), Access(v)) <==> HintsPanic(v) == HintsPanic(w)
  {
    hide CoreStep, Syscall, LoadWord, Hints.Decode, RangeBytes, SamePreimage;
    if !v.exited && v.cpu.pc % 4 == 0 {
      var s := (v.step + 1) % 0x1_0000_0000_0000_0000;
      if !IsSyscall(LoadWord(v.mem, v.cpu.pc)) {
        CoreStepIsLocal(v.(step := s), w.(step := s), LoadWord(v.mem, v.cpu.pc));
      } else if v.registers[2] == SYS_WRITE && v.registers[4] == 4 {
        HintWriteIsLocal(oracle, v.(step := s), oracle', w.(step := s));
        HintWriteIsLocal(oracle', w.(step := s), oracle, v.(step := s));
      } else {
        assert ReadsPreimage(v) ==> SamePreimage(oracle, v.(step := s), oracle', w.(step := s)) by { OnlyCacheMatters(oracle, v, oracle', w, s); }
        SyscallIsLocal(oracle, v.(step := s), oracle', w.(step := s));
      }
    }
  }

  lemma OnlyCacheMatters(oracle: Oracle, v: Vm, oracle': Oracle, w: Vm, s: uint64)
    ensures SamePreimage(oracle, v.(step := s), oracle', w.(step := s)) == SamePreimage(oracle, v, oracle', w)
  {
  }

  // ----- a step checked against the root only -----

  /** A branch with the word of `addr` replaced. */
  function Rewritten(q: seq<Bytes32>, addr: nat, x: uint32): seq<Bytes32>
    requires |q| == 28 && addr % 4 == 0
  {
    [StoreInLeaf(q[0], addr, x)] + q[1..]
  }

  /** The root after a step follows from the branch of the touched word before it. */
  lemma RootAfterStep(K: Hasher, oracle: Oracle, v: Vm)
    requires Wf(v) && Step(oracle, v).Done?
    ensures Wf(Step(oracle, v).vm)
    ensures var mem' := Step(oracle, v).vm.mem;
            match Access(v)
            case None => MemRoot(K, mem') == MemRoot(K, v.mem)
            case Some(a) =>
              a % 4 == 0 && a < MEM_SIZE && MemRoot(K, mem') == Fold(K, a, Rewritten(MemProof(K, v.mem, a), a, LoadWord(mem', a)))
  {
    hide Step, Access, LoadWord, StoreWord, MemRoot, MemProof, Fold;
    StepKeeps(oracle, v);
    if Access(v).Some? {
      var a := Access(v).value;
      MemProofAfterStore(K, v.mem, a, LoadWord(Step(oracle, v).vm.mem, a));
    }
  }

  /** `q` is accepted for `addr` under `root`, and `w` holds the word it carries. */
  ghost predicate Accepts(K: Hasher, root: Bytes32, addr: uint32, q: seq<Bytes32>, mem: seq<byte>)
    requires |mem| == MEM_SIZE
  {
    addr % 4 == 0 && |q| == 28 && Fold(K, addr, q) == root && LoadWord(mem, addr) == WordInLeaf(q[0], addr)
  }

  /** The root of the memory after the step, from the branch of the touched word before it and that word after it. */
  ghost predicate NextRoot(K: Hasher, root: Bytes32, access: Option<uint32>, q: seq<Bytes32>, mem: seq<byte>, next: Bytes32) {
    match access
    case None => next == root
    case Some(a) => a % 4 == 0 && a + 4 <= |mem| && |q| == 28 && next == Fold(K, a, Rewritten(q, a, LoadWord(mem, a)))
  }

  /** Stepping from `w` has the effect of stepping from `v`, and yields the root of the memory after that. */
  ghost predicate StepsLike(K: Hasher, oracle: Oracle, v: Vm, oracle': Oracle, w: Vm, q: seq<Bytes32>)
    requires Wf(v) && Wf(w)
  {
    && Access(w) == Access(v)
    && SameEffect(Step(oracle, v), Step(oracle', w), Access(v))
    && match (Step(oracle, v), Step(oracle', w)) {
         case (Done(v', _), Done(w', _)) =>
           |v'.mem| == MEM_SIZE && NextRoot(K, MemRoot(K, v.mem), Access(v), q, w'.mem, MemRoot(K, v'.mem))
         case _ => true
       }
  }

  /** Someone who knows the encoded state but only the root of its memory, and steps from any memory `w.mem` holding
      just the words of two accepted branches, with the preimage bytes from anywhere, obtains the effect and the
      next root of the real step, unless two inputs with one hash turn up. */
  lemma BranchesSuffice(K: Hasher, oracle: Oracle, v: Vm, oracle': Oracle, w: Vm, p: seq<Bytes32>, q: seq<Bytes32>)
    returns (x: seq<byte>, y: seq<byte>)
    requires Wf(v) && Wf(w) && SameEncoded(v, w) && v.cpu.pc % 4 == 0
    requires Accepts(K, MemRoot(K, v.mem), v.cpu.pc, p, w.mem)
    requires Access(w).Some? ==> Accepts(K, MemRoot(K, v.mem), Access(w).value, q, w.mem)
    requires ReadsPreimage(w) ==> SamePreimage(oracle, v, oracle', w)
    requires HintsPanic(v) == HintsPanic(w)
    ensures StepsLike(K, oracle, v, oracle', w, q) || (x != y && K(x) == K(y))
  {
    hide Step, LoadWord, MemRoot, MemProof, Fold, WordInLeaf, IsSyscall, HintsPanic, SamePreimage;
    x, y := MemProofBinding(K, v.mem, v.cpu.pc, p);
    if x != y && K(x) == K(y) { return; }
    assert Access(w) == Access(v) && ReadsPreimage(w) == ReadsPreimage(v);
    if Access(w).Some? {
      x, y := MemProofBinding(K, v.mem, Access(w).value, q);
      if x != y && K(x) == K(y) { return; }
    }
    StepIsLocal(oracle, v, oracle', w);
    if Step(oracle, v).Done? {
      RootAfterStep(K, oracle, v);
      StepKeeps(oracle', w);
    }
  }

  // ----- whole runs -----

  /** The state after `n` steps, or None if one of them panics. */
  function RunSteps(oracle: Oracle, v: Vm, n: nat): Option<Vm>
    requires Wf(v)
    decreases n
  {
    if n == 0 then Some(v)
    else
      match Step(oracle, v)
      case Panic => None
      case Done(v', _) =>
        StepKeeps(oracle, v);
        RunSteps(oracle, v', n - 1)
  }

  /** The hints delivered in `n` steps. */
  function RunHints(oracle: Oracle, v: Vm, n: nat): seq<seq<byte>>
    requires Wf(v)
    decreases n
  {
    if n == 0 then []
    else
      match Step(oracle, v)
      case Panic => []
      case Done(v', hints) =>
        StepKeeps(oracle, v);
        hints + RunHints(oracle, v', n - 1)
  }

  /** All bytes written to the hint descriptor in `n` steps. */
  function RunHintBytes(oracle: Oracle, v: Vm, n: nat): seq<byte>
    requires Wf(v)
    decreases n
  {
    if n == 0 then []
    else
      match Step(oracle, v)
      case Panic => []
      case Done(v', _) =>
        StepKeeps(oracle, v);
        HintBytes(v) + RunHintBytes(oracle, v', n - 1)
  }

  /** No step makes the hint buffer outgrow the truncated length test. */
  predicate HintsFit(oracle: Oracle, v: Vm, n: nat)
    requires Wf(v)
    decreases n
  {
    n == 0 ||
    (|v.lastHint + HintBytes(v)| < Hints.TWO32 + 4 &&
     match Step(oracle, v)
     case Panic => true
     case Done(v', _) =>
       StepKeeps(oracle, v);
       HintsFit(oracle, v', n - 1))
  }

  /** On the hint buffer, a step is one write syscall or nothing. */
  lemma StepIsHintWrite(oracle: Oracle, v: Vm)
    requires Wf(v) && Step(oracle, v).Done?
    ensures var Done(v', hints) := Step(oracle, v);
            if Calls(v, SYS_WRITE, 4) then Hints.Decode(v.lastHint + HintBytes(v)) == Some(Hints.Decoded(hints, v'.lastHint))
            else hints == [] && v'.lastHint == v.lastHint
  {
    hide LoadWord, StoreWord, Alu, HiLo, JumpTarget, SignedImm, Taken, EffectiveAddress, RtOperand;
    hide Word, Overwrite, ReadPreimage, Fetch, RangeBytes, Hints.Decode, Mmap, Fcntl, ShiftKey;
  }

  /** One step delivers the frames that its bytes complete and buffers the rest. */
  lemma StepParses(oracle: Oracle, v: Vm)
    requires Wf(v) && Step(oracle, v).Done? && !Hints.StartsWithFrame(v.lastHint)
    requires |v.lastHint + HintBytes(v)| < Hints.TWO32 + 4
    ensures var Done(v', hints) := Step(oracle, v);
            Hints.Parse(v.lastHint + HintBytes(v)) == Hints.Decoded(hints, v'.lastHint) && !Hints.StartsWithFrame(v'.lastHint)
  {
    hide Step, Hints.Decode, Hints.StartsWithFrame, Calls, RangeBytes;
    StepIsHintWrite(oracle, v);
    var buf := v.lastHint + HintBytes(v);
    if Calls(v, SYS_WRITE, 4) {
      Hints.DecodeIsParse(buf);
    } else {
      assert buf == v.lastHint;
    }
    Hints.ParseKeepsBytes(buf);
  }

  /** After any number of steps, the hints delivered and the hint buffer are what the stream of all bytes written to
      the hint descriptor parses into, however the guest cut it into writes. */
  lemma {:induction false} RunsDeliverHints(oracle: Oracle, v: Vm, n: nat)
    requires Wf(v) && !Hints.StartsWithFrame(v.lastHint) && HintsFit(oracle, v, n)
    requires RunSteps(oracle, v, n).Some?
    ensures Hints.Parse(v.lastHint + RunHintBytes(oracle, v, n))
         == Hints.Decoded(RunHints(oracle, v, n), RunSteps(oracle, v, n).value.lastHint)
    decreases n
  {
    hide Step, Hints.Parse, Hints.StartsWithFrame, HintBytes;
    if n == 0 {
      assert v.lastHint + [] == v.lastHint;
      Hints.NothingToParse(v.lastHint);
    } else {
      StepKeeps(oracle, v);
      StepParses(oracle, v);
      var Done(v', hints) := Step(oracle, v);
      RunsDeliverHints(oracle, v', n - 1);
      var rest := RunHintBytes(oracle, v', n - 1);
      Hints.ParseSplit(v.lastHint + HintBytes(v), rest);
      Hints.Assoc(v.lastHint, HintBytes(v), rest);
    }
  }

  lemma {:induction false} RunKeepsRegisterZero(oracle: Oracle, v: Vm, n: nat)
    requires Wf(v) && RunSteps(oracle, v, n).Some?
    ensures var v' := RunSteps(oracle, v, n).value;
            Wf(v') && v'.registers[0] == v.registers[0] && (v.exited ==> v' == v)
    decreases n
  {
    hide Step;
    if n > 0 {
      StepKeeps(oracle, v);
      RunKeepsRegisterZero(oracle, Step(oracle, v).vm, n - 1);
    }
  }

  /** What the step does on the preimage descriptors. */
  function OracleOp(v: Vm): seq<Op>
    requires Wf(v)
  {
    if v.exited || v.cpu.pc % 4 != 0 || !IsSyscall(LoadWord(v.mem, v.cpu.pc)) || SyscallAccess(v.registers).None? then []
    else
      var addr, count := v.registers[5], v.registers[6];
      if v.registers[2] == SYS_READ then [Read(addr % 4, count)]
      else [KeyWrite(v.mem[addr..addr + Min(count, 4 - addr % 4)])]
  }

  ghost predicate InSession(v: Vm, s: Session) {
    s.key == v.preimageKey && s.offset == v.preimageOffset && s.cache == v.cache
  }

  /** On key, offset and cache, a step is an operation of a preimage session or nothing,
      and it panics where the operation does. */
  lemma StepIsOracleOp(oracle: Oracle, v: Vm, s: Session)
    requires Wf(v) && InSession(v, s)
    ensures Step(oracle, v).Done? ==>
              Run(oracle, s, OracleOp(v)).Some? && InSession(Step(oracle, v).vm, Run(oracle, s, OracleOp(v)).value)
  {
    hide LoadWord, StoreWord, Alu, HiLo, JumpTarget, SignedImm, Taken, EffectiveAddress, RtOperand;
    hide Word, Overwrite, ReadPreimage, Fetch, RangeBytes, Hints.Decode, Mmap, Fcntl, ShiftKey;
    var ops := OracleOp(v);
    if ops != [] {
      assert Run(oracle, s, ops) == match Apply(oracle, s, ops[0]) case None => None case Some(s') => Run(oracle, s', []);
    }
  }

  function OracleOps(oracle: Oracle, v: Vm, n: nat): seq<Op>
    requires Wf(v)
    decreases n
  {
    if n == 0 then []
    else
      match Step(oracle, v)
      case Panic => []
      case Done(v', _) =>
        StepKeeps(oracle, v);
        OracleOp(v) + OracleOps(oracle, v', n - 1)
  }

  lemma {:induction false} RunConcat(oracle: Oracle, s: Session, a: seq<Op>, b: seq<Op>)
    requires Run(oracle, s, a).Some?
    ensures Run(oracle, s, a + b) == Run(oracle, Run(oracle, s, a).value, b)
    decreases |a|
  {
    if a == [] {
      assert a + b == b;
    } else {
      assert (a + b)[1..] == a[1..] + b;
      RunConcat(oracle, Apply(oracle, s, a[0]).value, a[1..], b);
    }
  }

  lemma {:induction false} RunIsSession(oracle: Oracle, v: Vm, s: Session, n: nat)
    requires Wf(v) && InSession(v, s) && RunSteps(oracle, v, n).Some?
    ensures var r := Run(oracle, s, OracleOps(oracle, v, n));
            r.Some? && InSession(RunSteps(oracle, v, n).value, r.value)
    decreases n
  {
    hide Step, OracleOp, InSession;
    if n > 0 {
      StepKeeps(oracle, v);
      StepIsOracleOp(oracle, v, s);
      var v', s' := Step(oracle, v).vm, Run(oracle, s, OracleOp(v)).value;
      RunIsSession(oracle, v', s', n - 1);
      RunConcat(oracle, s, OracleOp(v), OracleOps(oracle, v', n - 1));
    }
  }

  /** From a new VM, after any number of steps, the bytes the guest received since it last wrote the key are
      the beginning of the preimage of that key, and the offset is within it. */
  lemma RunsReadFaithfully(oracle: Oracle, v: Vm, n: nat)
    requires Wf(v) && v.cache == FRESH && v.preimageOffset == 0
    requires AllHarmless(oracle, Session(v.preimageKey, 0, FRESH, []), OracleOps(oracle, v, n))
    requires RunSteps(oracle, v, n).Some?
    ensures var r := Run(oracle, Session(v.preimageKey, 0, FRESH, []), OracleOps(oracle, v, n));
            var v' := RunSteps(oracle, v, n).value;
            r.Some? && InSession(v', r.value) && v'.preimageOffset <= |Preimage(oracle, v'.preimageKey)| &&
            r.value.delivered == Preimage(oracle, v'.preimageKey)[..v'.preimageOffset]
  {
    hide Step, OracleOp, Preimage;
    var s := Session(v.preimageKey, 0, FRESH, []);
    RunIsSession(oracle, v, s, n);
    assert Preimage(oracle, v.preimageKey)[..0] == [];
    SessionsAreFaithful(oracle, s, OracleOps(oracle, v, n));
  }
}
