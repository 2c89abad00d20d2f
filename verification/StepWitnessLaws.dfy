/** What a step witness proves about the step it was recorded for. */
module StepWitnessLaws {
  import opened Words
  import opened Merkle
  import opened MerkleProofs
  import opened MemoryTree
  import opened MipsSpec
  import opened MipsStepLaws
  import opened Preimages
  import opened InstrumentedVM
  import opened PagedMemory
  import Hints
  import StateWitness

  /** Both branches of a recorded witness are accepted under the root inside its encoded state. */
  lemma WitnessIsAccepted(K: Hasher, oracle: Oracle, v: Vm, wit: StepWitness, oldProof: MemBranch)
    requires Wf(v) && wit.Describes(K, oracle, v, oldProof) && v.cpu.pc % 4 == 0
    ensures |wit.state| == 226 && wit.state[..32] == MemRoot(K, v.mem) && |wit.memProof| == 56
    ensures Accepts(K, MemRoot(K, v.mem), v.cpu.pc, wit.memProof[..28], v.mem)
    ensures Access(v).Some? ==> Accepts(K, MemRoot(K, v.mem), Access(v).value, wit.memProof[28..], v.mem)
    ensures wit.stateHash[0] == StateWitness.VmStatus(v.exited, v.exitCode)
  {
    hide MemProof, MemRoot, StateWitness.Witness, Fold, LoadWord, WordInLeaf;
    StateWitness.WitnessLayout(MemRoot(K, v.mem), v);
    MemProofCorrect(K, v.mem, v.cpu.pc);
    assert wit.memProof[..28] == MemProof(K, v.mem, v.cpu.pc);
    if Access(v).Some? {
      MemProofCorrect(K, v.mem, Access(v).value);
      assert wit.memProof[28..] == MemProof(K, v.mem, Access(v).value);
    }
  }

  /** `w` is a state as the witness encodes it, over a memory with the two words that the witness carries. */
  ghost predicate HoldsState(wit: StepWitness, w: Vm)
    requires Wf(w)
  {
    && |wit.state| == 226 && |wit.memProof| == 56
    && wit.state == StateWitness.Witness(wit.state[..32], w)
    && w.cpu.pc % 4 == 0 && LoadWord(w.mem, w.cpu.pc) == WordInLeaf(wit.memProof[0], w.cpu.pc)
    && match Access(w)
       case None => true
       case Some(a) => a % 4 == 0 && a + 4 <= MEM_SIZE && LoadWord(w.mem, a) == WordInLeaf(wit.memProof[28], a)
  }

  /** If the step reads a preimage, it is offered the bytes that the witness carries, at the offset it names. */
  ghost predicate HoldsPreimage(wit: StepWitness, oracle: Oracle, w: Vm)
    requires Wf(w)
  {
    ReadsPreimage(w) ==>
      w.preimageOffset == wit.preimageOffset && Fetch(oracle, w.cache, w.preimageKey).data == wit.preimageValue
  }

  /** The witness of a step that reads a preimage carries it, at the offset of the read, exactly if that is not the offset
      which the machine uses as a mark that nothing was read. */
  lemma CarriesPreimageIff(K: Hasher, oracle: Oracle, v: Vm, wit: StepWitness, oldProof: MemBranch)
    requires Wf(v) && wit.Describes(K, oracle, v, oldProof) && ReadsPreimage(v)
    ensures HoldsPreimage(wit, oracle, v) <==> v.preimageOffset != NO_ACCESS
  {
    hide MemProof, MemRoot, StateWitness.Witness, StateWitness.Commitment, Access, ReadsPreimage, Fetch;
  }

  /** Stepping from the witness alone gives the machine's own effect and the root of its next memory, unless two
      inputs with one hash turn up: from any state `w` that encodes to the witness, over any memory holding its two
      words, with any hint buffer and cache, and any oracle answering with its preimage bytes. Only a hint buffer
      that makes one of the two panic is excluded. */
  lemma WitnessSuffices(K: Hasher, oracle: Oracle, v: Vm, wit: StepWitness, oldProof: MemBranch, oracle': Oracle, w: Vm)
    returns (x: seq<byte>, y: seq<byte>)
    requires Wf(v) && wit.Describes(K, oracle, v, oldProof) && Wf(w)
    requires HoldsState(wit, w) && HoldsPreimage(wit, oracle', w)
    requires HintsPanic(v) == HintsPanic(w)
    ensures StepsLike(K, oracle, v, oracle', w, wit.memProof[28..]) || (x != y && K(x) == K(y))
  {
    hide MemProof, MemRoot, StateWitness.Witness, Fold, LoadWord, WordInLeaf, Step, IsSyscall, StepsLike, HintsPanic, Fetch;
    StateWitness.WitnessInjective(MemRoot(K, v.mem), v, wit.state[..32], w);
    WitnessIsAccepted(K, oracle, v, wit, oldProof);
    assert LoadWord(w.mem, v.cpu.pc) == LoadWord(v.mem, v.cpu.pc);
    assert Access(w) == Access(v) && ReadsPreimage(w) == ReadsPreimage(v);
    x, y := BranchesSuffice(K, oracle, v, oracle', w, wit.memProof[..28], wit.memProof[28..]);
  }

  // ----- whole runs -----

  /** No step of the run writes a range that wraps around into the page it starts in. */
  predicate ReadableRun(oracle: Oracle, v: Vm, n: nat)
    requires Wf(v)
    decreases n
  {
    n == 0 ||
    (ReadableRange(v) &&
     match Step(oracle, v)
     case Panic => true
     case Done(v', _) =>
       StepKeeps(oracle, v);
       ReadableRun(oracle, v', n - 1))
  }

  /** The answer to the step after `i` steps: a witness if asked for, describing the state before that step. */
  ghost predicate Answers(K: Hasher, oracle: Oracle, v: Vm, i: nat, proof: bool, wit: Option<StepWitness>)
    requires Wf(v)
  {
    && (wit.Some? <==> proof)
    && match RunSteps(oracle, v, i)
       case None => false
       case Some(before) =>
         Wf(before) && (wit.Some? ==> exists branch: MemBranch :: wit.value.Describes(K, oracle, before, branch))
  }

  /** Steps with and without proofs, mixed in any way, reach the state of the machine over flat memory, deliver its
      hints, return a witness of every step that was to be proved, and stop where the machine panics. */
  method Drive(s: InstrumentedState, proofs: seq<bool>) returns (ok: bool, wits: seq<Option<StepWitness>>)
    requires s.memory.Valid() && ReadableRun(s.oracle, s.Abs(), |proofs|)
    modifies s, s.memory, s.memory.pages.Values
    ensures s.memory.Valid()
    ensures match RunSteps(s.oracle, old(s.Abs()), |proofs|)
            case None => !ok
            case Some(v) => ok && s.Abs() == v && s.hints == old(s.hints) + RunHints(s.oracle, old(s.Abs()), |proofs|)
    ensures ok ==> |wits| == |proofs|
    ensures forall i :: 0 <= i < |wits| ==> i < |proofs| && Answers(s.memory.keccak, s.oracle, old(s.Abs()), i, proofs[i], wits[i])
  {
    hide *;
    AbsIsWf(s);
    ghost var v0, n := s.Abs(), |proofs|;
    wits := [];
    NoSteps(s.oracle, v0, s.hints);
    for i := 0 to |proofs|
      invariant s.memory.Valid() && fresh(s.memory.pages.Values - old(s.memory.pages.Values)) && Wf(s.Abs())
      invariant RunSteps(s.oracle, v0, i) == Some(s.Abs()) && s.hints == old(s.hints) + RunHints(s.oracle, v0, i)
      invariant |wits| == i
      invariant forall j :: 0 <= j < i ==> Answers(s.memory.keccak, s.oracle, v0, j, proofs[j], wits[j])
    {
      StepAt(s.oracle, v0, n, i);
      ghost var v, branch, before := s.Abs(), s.memProof, s.hints;
      var wit;
      ok, wit := s.Step(proofs[i]);
      EndsMeans(s, Step(s.oracle, v), ok, before);
      if !ok {
        return;
      }
      AnswersStep(s.memory.keccak, s.oracle, v0, i, proofs[i], wit, branch);
      Hints.Assoc(old(s.hints), RunHints(s.oracle, v0, i), Step(s.oracle, v).hints);
      wits := wits + [wit];
    }
    ok := true;
  }

  lemma AnswersStep(K: Hasher, oracle: Oracle, v: Vm, i: nat, proof: bool, wit: Option<StepWitness>, branch: MemBranch)
    requires Wf(v) && RunSteps(oracle, v, i).Some? && Wf(RunSteps(oracle, v, i).value) && (wit.Some? <==> proof)
    requires wit.Some? ==> wit.value.Describes(K, oracle, RunSteps(oracle, v, i).value, branch)
    ensures Answers(K, oracle, v, i, proof, wit)
  {
    hide StepWitness.Describes, RunSteps;
  }

  lemma EndsMeans(s: InstrumentedState, o: Outcome, ok: bool, before: seq<seq<byte>>)
    requires s.Ends(o, ok, before)
    ensures match o case Panic => !ok case Done(v, hints) => ok && s.Abs() == v && s.hints == before + hints
  {
  }

  lemma AbsIsWf(s: InstrumentedState)
    requires s.memory.Valid()
    ensures Wf(s.Abs())
  {
    hide Memory.Valid;
  }

  lemma NoSteps(oracle: Oracle, v: Vm, hints: seq<seq<byte>>)
    requires Wf(v)
    ensures RunSteps(oracle, v, 0) == Some(v) && hints + RunHints(oracle, v, 0) == hints
  {
  }

  /** The step after `i` of `n` steps. */
  lemma {:induction false} StepAt(oracle: Oracle, v0: Vm, n: nat, i: nat)
    requires Wf(v0) && i < n && ReadableRun(oracle, v0, n) && RunSteps(oracle, v0, i).Some?
    ensures var v := RunSteps(oracle, v0, i).value;
            Wf(v) && ReadableRange(v) &&
            match Step(oracle, v)
            case Panic => RunSteps(oracle, v0, n) == None
            case Done(v', hints) =>
              Wf(v') && RunSteps(oracle, v0, i + 1) == Some(v') && RunHints(oracle, v0, i + 1) == RunHints(oracle, v0, i) + hints
    decreases i
  {
    hide Step, ReadableRange;
    if Step(oracle, v0).Done? {
      StepKeeps(oracle, v0);
      var v1 := Step(oracle, v0).vm;
      if i == 0 {
        NoSteps(oracle, v1, Step(oracle, v0).hints);
        assert RunHints(oracle, v0, 1) == Step(oracle, v0).hints + RunHints(oracle, v1, 0);
      } else {
        StepAt(oracle, v1, n - 1, i - 1);
        var v := RunSteps(oracle, v1, i - 1).value;
        assert RunSteps(oracle, v0, i) == Some(v);
        if Step(oracle, v).Done? {
          Hints.Assoc(Step(oracle, v0).hints, RunHints(oracle, v1, i - 1), Step(oracle, v).hints);
        }
      }
    }
  }
}
