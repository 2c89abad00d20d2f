/** Whole runs of the VM memory: loading an image, then any mix of loads, stores, hashes and branches
    (cannon/mipsevm/memory.go). */
module MemoryRuns {
  import opened Words
  import opened Arithmetic
  import opened Merkle
  import opened MemoryTree
  import opened PagedMemory

  /** An address of a word, and the index of a node. */
  type WordAddress = a: int | 0 <= a < MEM_SIZE && a % 4 == 0
  type NodeIndex = g: int | 1 <= g && BitLen(g) <= 28 witness 1

  datatype MemOp = Store(addr: WordAddress, v: uint32) | Load(addr: WordAddress) | Hash(gindex: NodeIndex) | Branch(addr: WordAddress)

  datatype Answer = Nothing | WordRead(v: uint32) | HashOf(hash: Bytes32) | BranchOf(proof: seq<Bytes32>)

  /** What an operation does to flat contents, and what it answers from them. */
  ghost function Effect(mem: seq<byte>, op: MemOp): (r: seq<byte>)
    requires |mem| == MEM_SIZE
    ensures |r| == MEM_SIZE
  {
    if op.Store? then StoreWord(mem, op.addr, op.v) else mem
  }

  ghost function AnswerOf(K: Hasher, mem: seq<byte>, op: MemOp): Answer
    requires |mem| == MEM_SIZE
  {
    match op
    case Store(_, _) => Nothing
    case Load(addr) => WordRead(LoadWord(mem, addr))
    case Hash(g) => HashOf(MemNode(K, mem, g))
    case Branch(addr) => BranchOf(MemProof(K, mem, addr))
  }

  ghost function Effects(mem: seq<byte>, ops: seq<MemOp>): (r: seq<byte>)
    requires |mem| == MEM_SIZE
    ensures |r| == MEM_SIZE
  {
    if ops == [] then mem else Effect(Effects(mem, ops[..|ops| - 1]), ops[|ops| - 1])
  }

  method Perform(m: Memory, op: MemOp) returns (a: Answer)
    requires m.Valid()
    modifies m, m.pages.Values
    ensures m.Valid() && fresh(m.pages.Values - old(m.pages.Values))
    ensures m.mem == Effect(old(m.mem), op) && a == AnswerOf(m.keccak, old(m.mem), op)
  {
    hide Memory.Valid, MemNode, MemProof, StoreWord, LoadWord;
    a := Nothing;
    match op {
      case Store(addr, v) => m.SetMemory(addr, v);
      case Load(addr) =>
        var v := m.GetMemory(addr);
        a := WordRead(v);
      case Hash(g) =>
        var h := m.MerkleizeSubtree(g);
        a := HashOf(h);
      case Branch(addr) =>
        var p := m.MerkleProof(addr);
        a := BranchOf(p);
    }
  }

  method NewLoaded(K: Hasher, start: uint32, image: seq<byte>, limit: nat -> nat) returns (m: Memory)
    ensures m.Valid() && fresh(m) && fresh(m.pages.Values) && m.keccak == K && m.mem == Written(Zeros(MEM_SIZE), start, image)
  {
    hide Memory.Valid, Written, Cold, PageAt;
    m := new Memory(K);
    m.SetMemoryRange(start, image, limit);
  }

  /** A memory loaded with an image and then used in any way answers, every time, as the flat contents at that time
      determine, and its root in the end is the naive hash of the final contents. */
  method Drive(K: Hasher, start: uint32, image: seq<byte>, limit: nat -> nat, ops: seq<MemOp>)
    returns (answers: seq<Answer>, root: Bytes32)
    ensures var loaded := Written(Zeros(MEM_SIZE), start, image);
            && |answers| == |ops|
            && (forall i :: 0 <= i < |ops| ==> answers[i] == AnswerOf(K, Effects(loaded, ops[..i]), ops[i]))
            && root == MemRoot(K, Effects(loaded, ops))
  {
    hide Memory.Valid, Written, AnswerOf, Effect, MemRoot;
    var m := NewLoaded(K, start, image, limit);
    ghost var loaded := m.mem;
    answers := [];
    for n := 0 to |ops|
      invariant m.Valid() && fresh(m) && fresh(m.pages.Values) && m.keccak == K
      invariant |answers| == n && m.mem == Effects(loaded, ops[..n])
      invariant forall i :: 0 <= i < n ==> answers[i] == AnswerOf(K, Effects(loaded, ops[..i]), ops[i])
    {
      assert ops[..n + 1][..n] == ops[..n];
      var a := Perform(m, ops[n]);
      answers := answers + [a];
    }
    assert ops[..|ops|] == ops;
    root := m.MerkleRoot();
  }
}
