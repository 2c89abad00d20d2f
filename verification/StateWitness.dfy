/** The 226-byte encoding of a VM state and the hash that commits to it
    (cannon/mipsevm/state.go). */
module StateWitness {
  import opened Words
  import opened Merkle
  import opened MipsSpec
  import opened MipsAlu
  import opened MemoryTree
  import opened Preimages
  import Hints

  const WITNESS_SIZE := 226

  /** A number and the number of bytes it is encoded on. */
  datatype Field = Field(value: nat, width: nat)

  predicate Fits(f: Field) {
    f.value < Pow256(f.width)
  }

  function Encode(fs: seq<Field>): seq<byte> {
    if fs == [] then [] else PutBE(fs[0].value, fs[0].width) + Encode(fs[1..])
  }

  function Width(fs: seq<Field>): nat {
    if fs == [] then 0 else fs[0].width + Width(fs[1..])
  }

  lemma {:induction false} EncodeLength(fs: seq<Field>)
    ensures |Encode(fs)| == Width(fs)
  {
    if fs != [] { EncodeLength(fs[1..]); }
  }

  lemma {:induction false} EncodeConcat(fs: seq<Field>, gs: seq<Field>)
    ensures Encode(fs + gs) == Encode(fs) + Encode(gs)
    ensures Width(fs + gs) == Width(fs) + Width(gs)
  {
    if fs == [] {
      assert fs + gs == gs;
    } else {
      assert (fs + gs)[1..] == fs[1..] + gs;
      EncodeConcat(fs[1..], gs);
    }
  }

  /** Encodings of equally laid out fields are equal only if the fields are. */
  lemma {:induction false} EncodeInjective(fs: seq<Field>, gs: seq<Field>)
    requires |fs| == |gs| && forall i :: 0 <= i < |fs| ==> fs[i].width == gs[i].width && Fits(fs[i]) && Fits(gs[i])
    requires Encode(fs) == Encode(gs)
    ensures fs == gs
  {
    if fs != [] {
      var a, b, n := PutBE(fs[0].value, fs[0].width), PutBE(gs[0].value, gs[0].width), fs[0].width;
      assert Encode(fs)[..n] == a && Encode(gs)[..n] == b;
      assert Encode(fs)[n..] == Encode(fs[1..]) && Encode(gs)[n..] == Encode(gs[1..]);
      assert Fits(fs[0]) && Fits(gs[0]);
      GetPut(fs[0].value, n);
      GetPut(gs[0].value, n);
      EncodeInjective(fs[1..], gs[1..]);
      assert fs == [fs[0]] + fs[1..] && gs == [gs[0]] + gs[1..];
    }
  }

  /** The scalar part of the state, in the order it is encoded. */
  function Words6(v: Vm): seq<Field> {
    [Field(v.preimageOffset, 4), Field(v.cpu.pc, 4), Field(v.cpu.nextPC, 4), Field(v.cpu.lo, 4), Field(v.cpu.hi, 4),
     Field(v.heap, 4)]
  }

  function StatusFields(v: Vm): seq<Field> {
    [Field(v.exitCode, 1), Field(if v.exited then 1 else 0, 1), Field(v.step, 8)]
  }

  function RegisterFields(r: seq<uint32>): seq<Field> {
    seq(|r|, i requires 0 <= i < |r| => Field(r[i], 4))
  }

  function Fields(v: Vm): seq<Field> {
    Words6(v) + StatusFields(v) + RegisterFields(v.registers)
  }

  /** Memory root and preimage key, then all scalars and registers. Hints and caches are not part of it. */
  function Witness(root: Bytes32, v: Vm): seq<byte> {
    Prefix(root, v.preimageKey) + Encode(Fields(v))
  }

  function Prefix(a: seq<byte>, b: seq<byte>): seq<byte> {
    a + b
  }

  lemma {:induction false} RegisterWidth(r: seq<uint32>)
    ensures Width(RegisterFields(r)) == 4 * |r|
  {
    if r != [] {
      assert RegisterFields(r)[1..] == RegisterFields(r[1..]);
      RegisterWidth(r[1..]);
    }
  }

  lemma WordsWidth(v: Vm)
    ensures |Encode(Words6(v))| == 24
  {
    var fs := Words6(v);
    EncodeLength(fs);
    assert fs[..3] + fs[3..] == fs;
    EncodeConcat(fs[..3], fs[3..]);
    assert Width(fs[..3]) == 12 by { assert fs[..3] == [fs[0], fs[1], fs[2]]; WidthOf3(fs[0], fs[1], fs[2]); }
    assert Width(fs[3..]) == 12 by { assert fs[3..] == [fs[3], fs[4], fs[5]]; WidthOf3(fs[3], fs[4], fs[5]); }
  }

  lemma EncodeOne(f: Field)
    ensures Encode([f]) == PutBE(f.value, f.width) && Width([f]) == f.width
  {
    assert Encode([f]) == PutBE(f.value, f.width) + Encode([f][1..]);
  }

  lemma WidthOf3(a: Field, b: Field, c: Field)
    ensures Width([a, b, c]) == a.width + b.width + c.width
    ensures Encode([a, b, c]) == PutBE(a.value, a.width) + (PutBE(b.value, b.width) + PutBE(c.value, c.width))
  {
    EncodeConcat([a], [b] + [c]);
    EncodeConcat([b], [c]);
    assert [a, b, c] == [a] + ([b] + [c]);
    EncodeOne(a);
    EncodeOne(b);
    EncodeOne(c);
  }

  lemma OneByte(x: byte)
    ensures PutBE(x, 1) == [x]
  {
    assert PutBE(x / 256, 0) == [];
  }

  /** The three parts after root and key. */
  lemma WitnessParts(root: Bytes32, v: Vm)
    ensures |Prefix(root, v.preimageKey)| == 64
    ensures Witness(root, v) ==
            Prefix(root, v.preimageKey) + Encode(Words6(v)) + ([v.exitCode, if v.exited then 1 else 0] + PutBE(v.step, 8))
              + Encode(RegisterFields(v.registers))
  {
    EncodeConcat(Words6(v) + StatusFields(v), RegisterFields(v.registers));
    EncodeConcat(Words6(v), StatusFields(v));
    WidthOf3(StatusFields(v)[0], StatusFields(v)[1], StatusFields(v)[2]);
    OneByte(v.exitCode);
    OneByte(if v.exited then 1 else 0);
  }

  /** Every witness has 226 bytes, with the exit code and the exited flag at 88 and 89. */
  lemma WitnessLayout(root: Bytes32, v: Vm)
    ensures var sw := Witness(root, v);
            |sw| == WITNESS_SIZE && sw[..32] == root && sw[32..64] == v.preimageKey &&
            sw[88] == v.exitCode && sw[89] == (if v.exited then 1 else 0)
  {
    WitnessParts(root, v);
    WordsWidth(v);
    RegisterWidth(v.registers);
    EncodeLength(RegisterFields(v.registers));
    Pow256Of8();
  }

  /** Where every field is, big-endian: offset, program counter and its successor, lo, hi, heap, then after the exit fields
      the step counter and the registers. */
  lemma WitnessOffsets(root: Bytes32, v: Vm, i: nat)
    requires i < 32
    ensures var sw := Witness(root, v);
            && |sw| == 226
            && sw[64..68] == PutBE(v.preimageOffset, 4) && sw[68..72] == PutBE(v.cpu.pc, 4) && sw[72..76] == PutBE(v.cpu.nextPC, 4)
            && sw[76..80] == PutBE(v.cpu.lo, 4) && sw[80..84] == PutBE(v.cpu.hi, 4) && sw[84..88] == PutBE(v.heap, 4)
            && sw[90..98] == PutBE(v.step, 8) && sw[98 + 4 * i..102 + 4 * i] == PutBE(v.registers[i], 4)
  {
    hide PutBE, Encode;
    WitnessLayout(root, v);
    WitnessParts(root, v);
    WordsWidth(v);
    SixWords(v);
    RegisterWidth(v.registers);
    EncodeLength(RegisterFields(v.registers));
    RegisterAt(v.registers, i);
    var sw, six := Witness(root, v), Encode(Words6(v));
    assert sw[64..88] == six && sw[98..] == Encode(RegisterFields(v.registers));
    assert sw[90..98] == PutBE(v.step, 8);
    forall k: nat | k < 6 ensures sw[64 + 4 * k..68 + 4 * k] == six[4 * k..4 * k + 4] {
      SliceOfSlice(sw, 64, 88, 4 * k, 4 * k + 4);
    }
    SliceOfSlice(sw, 98, 226, 4 * i, 4 * i + 4);
  }

  lemma SixWords(v: Vm)
    ensures var six := Encode(Words6(v));
            && |six| == 24 && six[0..4] == PutBE(v.preimageOffset, 4) && six[4..8] == PutBE(v.cpu.pc, 4)
            && six[8..12] == PutBE(v.cpu.nextPC, 4) && six[12..16] == PutBE(v.cpu.lo, 4)
            && six[16..20] == PutBE(v.cpu.hi, 4) && six[20..24] == PutBE(v.heap, 4)
  {
    hide PutBE;
    var fs := Words6(v);
    assert fs == [fs[0], fs[1], fs[2]] + [fs[3], fs[4], fs[5]];
    EncodeConcat([fs[0], fs[1], fs[2]], [fs[3], fs[4], fs[5]]);
    WidthOf3(fs[0], fs[1], fs[2]);
    WidthOf3(fs[3], fs[4], fs[5]);
  }

  lemma {:induction false} RegisterAt(r: seq<uint32>, i: nat)
    requires i < |r|
    ensures var e := Encode(RegisterFields(r)); 4 * i + 4 <= |e| && e[4 * i..4 * i + 4] == PutBE(r[i], 4)
  {
    hide PutBE;
    var fs := RegisterFields(r);
    assert fs[1..] == RegisterFields(r[1..]) && fs[0] == Field(r[0], 4);
    var rest := Encode(fs[1..]);
    assert Encode(fs) == PutBE(r[0], 4) + rest;
    if i > 0 {
      RegisterAt(r[1..], i - 1);
      assert Encode(fs)[4 * i..4 * i + 4] == rest[4 * i - 4..4 * i];
    }
  }

  lemma FieldsFit(v: Vm)
    ensures |Fields(v)| == 41 && forall i :: 0 <= i < 41 ==> Fits(Fields(v)[i])
  {
    Pow256Of4();
    Pow256Of8();
    assert Pow256(1) == 256;
  }

  /** Two states with the same witness agree on everything that is committed to. */
  lemma WitnessInjective(r1: Bytes32, v1: Vm, r2: Bytes32, v2: Vm)
    requires Witness(r1, v1) == Witness(r2, v2)
    ensures r1 == r2 && SameEncoded(v1, v2)
  {
    WitnessLayout(r1, v1);
    WitnessLayout(r2, v2);
    assert Encode(Fields(v1)) == Witness(r1, v1)[64..] && Encode(Fields(v2)) == Witness(r2, v2)[64..];
    FieldsFit(v1);
    FieldsFit(v2);
    EncodeInjective(Fields(v1), Fields(v2));
    SameFields(v1, v2);
  }

  lemma SameFields(v1: Vm, v2: Vm)
    requires Fields(v1) == Fields(v2)
    ensures v1.preimageOffset == v2.preimageOffset && v1.cpu == v2.cpu && v1.heap == v2.heap
    ensures v1.exitCode == v2.exitCode && v1.exited == v2.exited && v1.step == v2.step
    ensures v1.registers == v2.registers
  {
    var f, g := Fields(v1), Fields(v2);
    assert Words6(v1) == f[..6] && Words6(v2) == g[..6];
    assert StatusFields(v1) == f[6..9] && StatusFields(v2) == g[6..9];
    var a, b, c, d := Words6(v1), Words6(v2), StatusFields(v1), StatusFields(v2);
    assert a[0] == b[0] && a[1] == b[1] && a[2] == b[2] && a[3] == b[3] && a[4] == b[4] && a[5] == b[5];
    assert c[0] == d[0] && c[1] == d[1] && c[2] == d[2];
    forall i | 0 <= i < 32 ensures v1.registers[i] == v2.registers[i] {
      assert f[9 + i] == RegisterFields(v1.registers)[i] && g[9 + i] == RegisterFields(v2.registers)[i];
    }
  }

  // ----- the state hash -----

  const VALID: byte := 0
  const INVALID: byte := 1
  const PANIC: byte := 2
  const UNFINISHED: byte := 3

  function VmStatus(exited: bool, exitCode: byte): byte {
    if !exited then UNFINISHED
    else if exitCode == 0 then VALID
    else if exitCode == 1 then INVALID
    else PANIC
  }

  /** What the first byte of a state hash tells: 3 for a machine still running, otherwise 0 or 1 for exit codes 0 and 1,
      and 2 for all others. */
  predicate TellsStatus(first: byte, exited: bool, exitCode: byte) {
    && (first == 3 <==> !exited)
    && (first == 0 <==> exited && exitCode == 0)
    && (first == 1 <==> exited && exitCode == 1)
    && (first == 2 <==> exited && exitCode > 1)
  }

  lemma StatusTold(exited: bool, exitCode: byte)
    ensures TellsStatus(VmStatus(exited, exitCode), exited, exitCode)
  {
  }

  /** The hash of a witness with its first byte replaced by the status read from the witness. */
  method StateHash(K: Hasher, sw: seq<byte>) returns (h: Option<Bytes32>)
    ensures h.None? <==> |sw| != 226
    ensures h.Some? ==> h.value[1..] == K(sw)[1..] && TellsStatus(h.value[0], sw[89] == 1, sw[88])
    ensures h.Some? ==> h.value[0] == VmStatus(sw[89] == 1, sw[88])
  {
    if |sw| != WITNESS_SIZE {
      return None;
    }
    var hash := K(sw);
    var offset := 32 * 2 + 4 * 6;
    var exitCode := sw[offset];
    var exited := sw[offset + 1];
    var status := VmStatus(exited == 1, exitCode);
    return Some(hash[0 := status]);
  }

  /** The hash that commits to a state. */
  function Commitment(K: Hasher, root: Bytes32, v: Vm): Bytes32 {
    K(Witness(root, v))[0 := VmStatus(v.exited, v.exitCode)]
  }

  /** The status is told by the commitment of every state, and every exit code has its own meaning. */
  lemma CommitmentTellsStatus(K: Hasher, root: Bytes32, v: Vm)
    ensures Commitment(K, root, v)[1..] == K(Witness(root, v))[1..]
    ensures TellsStatus(Commitment(K, root, v)[0], v.exited, v.exitCode)
  {
    StatusTold(v.exited, v.exitCode);
  }

  /** A step that calls exit_group ends in a state whose commitment tells valid, invalid or panic by the low byte of the
      argument, and which stays so over all further steps. */
  lemma ExitIsTold(K: Hasher, oracle: Oracle, v: Vm)
    requires Wf(v) && Calls(v, 4246, v.registers[4])
    ensures var o := Step(oracle, v);
            && o.Done? && o.vm.mem == v.mem && Wf(o.vm) && Step(oracle, o.vm) == Done(o.vm, [])
            && forall root: Bytes32 :: TellsStatus(Commitment(K, root, o.vm)[0], true, v.registers[4] % 0x100)
  {
    hide LoadWord, Commitment;
    var w := Step(oracle, v).vm;
    forall root: Bytes32 ensures TellsStatus(Commitment(K, root, w)[0], true, v.registers[4] % 0x100) {
      CommitmentTellsStatus(K, root, w);
    }
  }

  /** Any other step leaves the machine running. */
  lemma RunningIsTold(K: Hasher, oracle: Oracle, v: Vm)
    requires Wf(v) && !v.exited && Step(oracle, v).Done? && !Calls(v, 4246, v.registers[4])
    ensures forall root: Bytes32 :: Commitment(K, root, Step(oracle, v).vm)[0] == 3
  {
    hide LoadWord, StoreWord, Alu, HiLo, JumpTarget, SignedImm, Taken, EffectiveAddress, RtOperand, Commitment;
    hide Word, Overwrite, ReadPreimage, Fetch, RangeBytes, Hints.Decode, Mmap, Fcntl, ShiftKey;
    var w := Step(oracle, v).vm;
    assert !w.exited;
    forall root: Bytes32 ensures Commitment(K, root, w)[0] == 3 {
      CommitmentTellsStatus(K, root, w);
    }
  }

  /** Equal commitments mean equal status, and equal committed state unless two inputs agree on 31 bytes of their hash. */
  lemma CommitmentBinding(K: Hasher, r1: Bytes32, v1: Vm, r2: Bytes32, v2: Vm)
    requires Commitment(K, r1, v1) == Commitment(K, r2, v2)
    ensures VmStatus(v1.exited, v1.exitCode) == VmStatus(v2.exited, v2.exitCode)
    ensures var x, y := Witness(r1, v1), Witness(r2, v2);
            (x != y && K(x)[1..] == K(y)[1..]) ||
            (r1 == r2 && SameEncoded(v1, v2))
  {
    var x, y := Witness(r1, v1), Witness(r2, v2);
    var s, t := VmStatus(v1.exited, v1.exitCode), VmStatus(v2.exited, v2.exitCode);
    assert K(x)[0 := s][0] == s && K(y)[0 := t][0] == t;
    assert K(x)[1..] == K(x)[0 := s][1..] == K(y)[0 := t][1..] == K(y)[1..];
    if x == y {
      WitnessInjective(r1, v1, r2, v2);
    }
  }

  /** Memory, hint buffer and cache do not enter the encoding, except through the root. */
  lemma MemoryNotEncoded(K: Hasher, root: Bytes32, v: Vm, w: Vm)
    requires SameEncoded(v, w)
    ensures Witness(root, v) == Witness(root, w) && Commitment(K, root, v) == Commitment(K, root, w)
  {
    assert Words6(v) == Words6(w) && StatusFields(v) == StatusFields(w);
  }

  /** Encodes the state field by field, then hashes it. */
  method EncodeWitness(K: Hasher, root: Bytes32, v: Vm) returns (out: seq<byte>, h: Bytes32)
    ensures out == Witness(root, v) && |out| == WITNESS_SIZE && h == Commitment(K, root, v)
  {
    out := [];
    out := out + root;
    out := out + v.preimageKey;
    var words := [v.preimageOffset, v.cpu.pc, v.cpu.nextPC, v.cpu.lo, v.cpu.hi, v.heap];
    out := AppendWords(out, words);
    WordFields(v, words);
    out := out + [v.exitCode];
    out := out + [if v.exited then 1 else 0];
    out := out + PutBE(v.step, 8);
    out := AppendWords(out, v.registers);
    AssembledWitness(root, v, out);
    WitnessLayout(root, v);
    var hash := StateHash(K, out);
    h := hash.value;
    assert h == K(out)[0 := VmStatus(v.exited, v.exitCode)];
  }

  lemma WordFields(v: Vm, words: seq<uint32>)
    requires words == [v.preimageOffset, v.cpu.pc, v.cpu.nextPC, v.cpu.lo, v.cpu.hi, v.heap]
    ensures RegisterFields(words) == Words6(v)
  {
  }

  lemma AssembledWitness(root: Bytes32, v: Vm, out: seq<byte>)
    requires out == [] + root + v.preimageKey + Encode(Words6(v)) + [v.exitCode] + [if v.exited then 1 else 0]
                    + PutBE(v.step, 8) + Encode(RegisterFields(v.registers))
    ensures out == Witness(root, v)
  {
    WitnessParts(root, v);
  }

  /** Appends each word, big-endian. */
  method AppendWords(out: seq<byte>, words: seq<uint32>) returns (r: seq<byte>)
    ensures r == out + Encode(RegisterFields(words))
  {
    r := out;
    assert RegisterFields(words[..0]) == [];
    for i := 0 to |words|
      invariant r == out + Encode(RegisterFields(words[..i]))
    {
      AppendOne(words, i);
      r := r + PutBE(words[i], 4);
    }
    assert words[..|words|] == words;
  }

  lemma AppendOne(words: seq<uint32>, i: nat)
    requires i < |words|
    ensures Encode(RegisterFields(words[..i + 1])) == Encode(RegisterFields(words[..i])) + PutBE(words[i], 4)
  {
    var f := [Field(words[i], 4)];
    assert RegisterFields(words[..i + 1]) == RegisterFields(words[..i]) + f;
    EncodeConcat(RegisterFields(words[..i]), f);
    EncodeOne(f[0]);
  }
}
