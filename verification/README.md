# Verification of Optimism components

This project models five components of the Optimism monorepo in Dafny and proves what they promise.

* **Cannon** (`cannon/mipsevm`): the Merkleized memory of the fault-proof VM with its three layers of caches, the MIPS
  step machine over it, unaligned accesses, hint and preimage system calls, and the step witness. Memory is a class
  whose contents are specified as a flat string of 2^32 bytes and whose root is specified as the naive hash of that
  string; the machine is a class proved against a step function over flat memory, and what every instruction and system
  call does in a step is stated in numbers, registers and bytes.
* **Alt-DA challenge tracking** (`op-plasma`): the queues and the index are classes proved against two logs with
  cursors; the theorems are about every run of the manager, with resets, look-ahead, finalization and whatever L1 and
  the storage server answer.
* **Batcher channel pipeline** (`op-batcher/batcher`): builder, channel and manager are classes proved against values;
  the theorems are conservation of frames, no loss of blocks, their order, routing of confirmations and the meaning of
  "fully submitted", in every run.
* **Dispute monitor** (`op-dispute-mon/mon`): reverse scans proved equal to recursive definitions over the game tree.
* **Conductor** (`op-conductor`): the replicated unsafe head with snapshots, the control loop with its one-slot action
  queue, and the runs in which both go on together.

Where the code does less than one would expect, the model keeps the code and the theorem says exactly when the
expectation is met: `SravMeetsArchitecture` (the shift amount of srav is not masked), `TurnIsIntended` (hint lengths and
slice bounds on 32 bits), `FaithfulReadExactly` (the zero preimage key and the empty cache, offsets on 32 bits),
`LoadKeepsInvIff` (loading a page under cached hashes), `SliceInRange` (a memory range that returns to its first page),
`DivMeaning` (the one quotient that does not fit), `KeysEqualIff` (challenge keys without a separator), `WindowHonouredIff`
(window ends on 64 bits), `SubmittedMeansDelivered` (a channel whose output cannot be closed), `ClosesAtDeadlines` (a deadline
that wraps to 0), `CallKeepsOrderIff` (a request that fails after some blocks were added), `AlwaysAsMeantIff` (claims of
the zero address), `TurnKeepsAwakeIff` (a resume request that times out).

## Conventions

* Keccak-256 is a function-valued parameter; every theorem holds for every such function. Statements about binding
  return two different inputs with one hash instead of assuming there are none.
* Machine integers are subset types of `int` with wrap-around written out.
* Panics of the source are `Option` or `Panic` results, or preconditions where the theorem is that callers meet them.
* Answers of other systems (L1, storage, channel output, node, consensus, clock) are parameters of the calls, so the
  run theorems range over all of them.
* Fixed-size arrays embedded in a Go struct are values there and sequence fields here.
* Objects shared between collections (pages, challenges, channels) are classes; ghost fields hold the value or log that
  each class is proved against.

## Model

| member | source | states |
|---|---|---|
| Merkle.ZeroHashes | cannon/mipsevm/memory.go:30-37 | entry h of the table is the hash of 2^h zero leaves |
| Merkle.TreeHashIs | cannon/mipsevm/memory.go:125-127 | the hash of a leaf is the leaf, and that of an inner node the hash of its left half followed by its right |
| Merkle.OnlyAncestorsChange | cannon/mipsevm/memory.go:76-100 | changing bytes of one leaf changes the hash of no node except the ancestors of that leaf |
| Merkle.SubtreeNode | cannon/mipsevm/memory.go:107-116 | a node at or below page level is a node of the tree over that page alone, so hashing may be delegated to the page |
| Pages.CachedPage.Invalidate | cannon/mipsevm/page.go:73-84 | clears exactly the marks on the path of the address, keeps the bytes and all other marks |
| Pages.CachedPage.InvalidateFull | cannon/mipsevm/page.go:86-88 | clears every mark |
| Pages.CachedPage.MerkleRoot | cannon/mipsevm/page.go:90-113 | whatever marks were set before, if they were sound the result is the naive hash of the page and the whole cache is valid afterwards |
| Pages.CachedPage.MerkleizeSubtree | cannon/mipsevm/page.go:115-126 | for every node of the page, leaves included, the naive hash of the bytes below it |
| MemoryTree.EarlyReturnSound | cannon/mipsevm/memory.go:84-88 | under the invariant, a page whose root mark is clear has no cached hash above it: the early return leaves nothing stale |
| MemoryTree.AllocKeepsInv | cannon/mipsevm/memory.go:218-228 | adding a zero page and clearing its path keeps the invariant: contents, sound caches, cached hashes right, every page below a cached hash has a valid root |
| MemoryTree.InvalidateKeepsInv | cannon/mipsevm/memory.go:76-100 | invalidation, with or without the early return, keeps the invariant and leaves nothing cached above the address |
| MemoryTree.WriteKeepsInv | cannon/mipsevm/memory.go:186-203 | writing a word under invalidated nodes keeps the invariant for the changed contents |
| MemoryTree.StoreKeepsInv | cannon/mipsevm/memory.go:125-129 | caching a freshly computed hash keeps the invariant when all pages below have valid roots |
| MemoryTree.FilledPageNode | cannon/mipsevm/memory.go:107-113 | after a page filled its cache the invariant holds and its node is the node of the whole memory |
| MemoryTree.AbsentPageNode | cannon/mipsevm/memory.go:107-115 | below page level, a node of a page that was never allocated has the zero hash of its height |
| MemoryTree.AbsentNode | cannon/mipsevm/memory.go:117-121 | a node without a table entry has the zero hash of its height |
| MemoryTree.LoadKeepsInvIff | cannon/mipsevm/memory.go:267-285 | loading bytes into a page keeps the invariant if and only if no hash above the page is cached |
| MemoryTree.LoadLeavesHash | cannon/mipsevm/memory.go:267-285 | where one is cached, it stays the hash of the contents before the load, and is right only if that is also the hash of the new contents |
| PagedMemory.Memory.constructor | cannon/mipsevm/memory.go:55-61 | an empty memory is valid, all zero, with nothing cached |
| PagedMemory.Memory.PageLookup | cannon/mipsevm/memory.go:165-184 | the two-slot cache always answers as the page table does and changes nothing that can be observed |
| PagedMemory.Memory.AllocPage | cannon/mipsevm/memory.go:218-228 | adds one zero page and clears exactly the path above it |
| PagedMemory.Memory.Invalidate | cannon/mipsevm/memory.go:76-100 | clears the path in the page and, unless the page was invalid already, the path above it; does nothing without a page |
| PagedMemory.Memory.SetMemory | cannon/mipsevm/memory.go:186-203 | the flat contents change by exactly the four big-endian bytes, and the cached tree stays valid |
| PagedMemory.Memory.GetMemory | cannon/mipsevm/memory.go:205-216 | returns the big-endian word of the flat contents, zero where no page exists, and changes nothing |
| PagedMemory.Memory.SetMemoryRange | cannon/mipsevm/memory.go:267-285 | if no hash is cached above a page that is opened, the one after the last byte included, then however the reader cuts its data, all bytes are written in order from the address on, around the end of the address space, and the tree stays valid |
| PagedMemory.Memory.MerkleizePage | cannon/mipsevm/memory.go:107-116 | for nodes at or below page level, the naive hash of the bytes below the node |
| PagedMemory.Memory.MerkleizeSubtree | cannon/mipsevm/memory.go:102-130 | for every node, the naive hash of the bytes below it, whatever was cached and whatever pages exist; for index 0, which is no node, the zero hash of height 28 |
| PagedMemory.Memory.MerkleRoot | cannon/mipsevm/memory.go:161-163 | the naive hash of all 2^32 bytes |
| PagedMemory.Memory.TraverseBranch | cannon/mipsevm/memory.go:141-159 | the part of the branch below the parent, leaf first |
| PagedMemory.Memory.MerkleProof | cannon/mipsevm/memory.go:132-139 | the leaf and all 27 siblings of the address in the tree over the flat contents |
| MemoryRuns.Drive | cannon/mipsevm/memory.go:55-285 | for every image loaded and every later mix of loads, stores, hashes and branches, each answer is the one the flat contents at that time determine, and the final root is the naive hash of the final contents |
| MerkleProofs.ProofFoldsToRoot | cannon/mipsevm/memory.go:132-159 | for every tree and byte, folding the branch along the bits of the address gives the root |
| MerkleProofs.RefoldGivesNewRoot | cannon/mipsevm/memory.go:132-203 | the same siblings folded over the changed leaf give the root of the changed bytes |
| MerkleProofs.ProofBinding | cannon/mipsevm/memory.go:132-159 | a branch of the right length that folds to the root is the branch, or two inputs with one hash are exhibited |
| MemoryTree.MemProofCorrect | cannon/mipsevm/memory.go:132-159 | for every aligned address the 28 entries fold to the memory root and the leaf holds the word that is read |
| MemoryTree.MemProofAfterStore | cannon/mipsevm/memory.go:132-203 | folding the same siblings over the leaf with its word replaced gives the root after the store |
| MemoryTree.MemProofBinding | cannon/mipsevm/memory.go:132-159 | whoever accepts a branch for a memory root accepts the branch and the word of that memory, or holds a collision |
| MemReaders.SliceInRange | cannon/mipsevm/memory.go:293-318 | the slice taken from a page is in range if and only if the range does not come back into the page it starts in |
| MemReaders.MemReader.Read | cannon/mipsevm/memory.go:293-318 | each read delivers the next bytes of the range and advances past them |
| MemReaders.ReadAll | cannon/mipsevm/memory.go:293-322 | reading to the end delivers exactly the range, around the end of the address space, whatever the buffer sizes |
| MipsAlu.SignExtendCorrect | cannon/mipsevm/mips_instructions.go:283-292 | for every width the mask construction is two's complement sign extension |
| MipsAlu.SraCorrect | cannon/mipsevm/mips_instructions.go:148-150 | shifting and sign-extending is the arithmetic shift, rounding down |
| MipsAlu.SravMeetsArchitecture | cannon/mipsevm/mips_instructions.go:155-156 | the variable arithmetic shift, whose amount is not masked, agrees with the architecture if and only if the amount is below 32 or the masked shift would give zero as well |
| MipsAlu.SravBeyond32 | cannon/mipsevm/mips_instructions.go:155-156 | for amounts of 32 or more the result is zero |
| InstrumentedVM.CountLeadingOnes | cannon/mipsevm/mips_instructions.go:224-232 | the shifting loop of clz and clo counts the leading one bits |
| MipsMeaning.BitwiseMeaning | cannon/mipsevm/mips_instructions.go:196-203 | every bit of and, or and xor is the operation on the operand bits |
| MipsMeaning.NotMeaning | cannon/mipsevm/mips_instructions.go:202-203 | every bit of a complement is the complement of the bit |
| MipsMeaning.LoadByteMeaning | cannon/mipsevm/mips_instructions.go:236-247 | lbu and lb load the byte of memory at their address, without and with its sign |
| MipsMeaning.LoadHalfMeaning | cannon/mipsevm/mips_instructions.go:238-249 | lhu and lh load the two bytes of the aligned halfword at their address, without and with its sign |
| MipsMeaning.StoreByteMeaning | cannon/mipsevm/mips_instructions.go:254-257 | sb changes the byte of memory at its address to the low byte of the register, and no other |
| MipsMeaning.StoreHalfMeaning | cannon/mipsevm/mips_instructions.go:258-261 | sh changes the two bytes of the aligned halfword at its address, and no others |
| MipsMeaning.ArithmeticMeaning | cannon/mipsevm/mips_instructions.go:188-223 | as signed numbers, add, sub and mul give the true sum, difference and product if and only if those fit in 32 bits, and never trap |
| MipsMeaning.MultMeaning | cannon/mipsevm/mips_instructions.go:339-346 | mult and multu leave the 64-bit product of the signed or unsigned operands in hi and lo |
| MipsMeaning.DivMeaning | cannon/mipsevm/mips_instructions.go:347-352 | div and divu leave quotient towards zero and remainder, panic exactly on a zero divisor, and miss only the one signed quotient that does not fit |
| MipsMeaning.AddressMeaning | cannon/mipsevm/mips_instructions.go:63-69 | loads and stores address the base register plus the signed 16-bit immediate |
| MipsMeaning.ImmediateMeaning | cannon/mipsevm/mips_instructions.go:36-56 | addi, slti, sltiu, andi, ori, xori and lui compute what their 16 bits mean, signed or not, across operand decoding and ALU |
| MipsMeaning.JumpMeaning | cannon/mipsevm/mips_instructions.go:24-25 | the target keeps the upper four bits of the successor of the delay slot and takes the other 28 from the instruction |
| MipsMeaning.BranchMeaning | cannon/mipsevm/mips_instructions.go:294-326 | after its delay slot a branch continues four times the signed immediate past the delay slot, or right after it |
| MipsMeaning.ReadWritesBytes | cannon/mipsevm/mips_syscalls.go:78-98 | a preimage read writes exactly the bytes it delivers at its address |
| MipsMeaning.MmapMeaning | cannon/mipsevm/mips_syscalls.go:48-66 | without an address hint the old end of the heap is returned and the heap grows by the length rounded up to whole pages |
| MipsInstructions.FieldsReadBack | cannon/mipsevm/mips_instructions.go:24-46 | an instruction put together from its fields is taken apart into the same fields |
| MipsInstructions.BranchSteps | cannon/mipsevm/mips_instructions.go:294-326 | a step of beq, bne, blez, bgtz, bltz or bgez compares as its name says, panics in a delay slot, and otherwise runs the delay slot and then goes on at the target or behind the delay slot; registers and memory stay |
| MipsInstructions.JumpSteps | cannon/mipsevm/mips_instructions.go:17-27 | a step of j, jal, jr or jalr panics in a delay slot, otherwise goes to its target after it, the link, eight past the jump, going to register 31 for jal and to rd for jalr |
| MipsInstructions.ShiftSteps | cannon/mipsevm/mips_instructions.go:144-156 | a step of a shift sets rd to rt multiplied or divided by the power of two its amount says, sra and srav rounding the signed value down; only srav does not reduce the amount, and gives 0 from 32 on |
| MipsInstructions.ArithmeticSteps | cannon/mipsevm/mips_instructions.go:188-213 | a step of add, addu, sub, subu, slt or sltu sets rd to the sum or difference modulo 2^32, or to 1 or 0 as the signed or unsigned comparison says |
| MipsInstructions.LogicSteps | cannon/mipsevm/mips_instructions.go:196-203 | a step of and, or, xor or nor sets every bit of rd to that operation on the bits of rs and rt |
| MipsInstructions.MoveSteps | cannon/mipsevm/mips_instructions.go:94-99 | movz writes rs to rd exactly if rt is zero, movn exactly if it is not, and both go on |
| MipsInstructions.HiLoMoveSteps | cannon/mipsevm/mips_instructions.go:331-338 | mfhi and mflo copy hi and lo to rd, mthi and mtlo copy rs to hi and lo and clear rd |
| MipsInstructions.ProductSteps | cannon/mipsevm/mips_instructions.go:339-346 | after a step of mult or multu, hi and lo together are the signed or unsigned product |
| MipsInstructions.DivisionSteps | cannon/mipsevm/mips_instructions.go:347-352 | a step of div or divu panics exactly on a zero divisor, and otherwise leaves the remainder in hi and the quotient towards zero in lo |
| MipsInstructions.Special2Steps | cannon/mipsevm/mips_instructions.go:220-233 | mul sets rd to the low half of the product, clz and clo to the number of leading zeros and ones |
| MipsInstructions.ImmediateSteps | cannon/mipsevm/mips_instructions.go:36-56 | each immediate instruction sets rt to its operation on rs and the immediate, signed for addi, addiu, slti and sltiu, not for andi, ori, xori and lui |
| MipsInstructions.LoadSteps | cannon/mipsevm/mips_instructions.go:236-247 | lw and ll set rt to the aligned word around base plus offset, lbu and lb to the byte there, without and with its sign |
| MipsInstructions.LoadHalfSteps | cannon/mipsevm/mips_instructions.go:238-249 | lhu and lh set rt to the halfword there, without and with its sign |
| MipsInstructions.StoreSteps | cannon/mipsevm/mips_instructions.go:254-267 | sb, sh and sw change the byte, halfword or word there to the low part of rt, and nothing else |
| MipsInstructions.StoreConditionalStep | cannon/mipsevm/mips_instructions.go:108-120 | sc stores rt and then sets it to 1, unless it is register 0 |
| MipsInstructions.PanicsIff | cannon/mipsevm/mips_instructions.go:123-281 | a step that is no system call panics if and only if its opcode and function code are unknown, it is a jump or branch in a delay slot, or a division by zero |
| MipsInstructions.StepRuns | cannon/mipsevm/mips.go:122-138 | an exited machine stays as it is, a program counter off word boundaries panics, and otherwise the step is counted and the word at the program counter is run |
| MipsInstructions.PlainCalls | cannon/mipsevm/mips.go:46-77 | by call number: what mmap, brk, clone, exit_group, fcntl and every unknown call return in registers 2 and 7 and change besides |
| MipsInstructions.ReadCalls | cannon/mipsevm/mips_syscalls.go:75-108 | what a read returns for every descriptor but that of preimages |
| MipsInstructions.PreimageRead | cannon/mipsevm/mips_syscalls.go:78-98 | a read of a preimage delivers the least of what is left, what fits into the aligned word and the count, puts these bytes at its address and moves the offset past them |
| MipsInstructions.WriteCalls | cannon/mipsevm/mips_syscalls.go:118-164 | what a write returns for every descriptor, and that key bytes go to the end of the key and reset the offset |
| MipsUnaligned.StoreLeftBytes | cannon/mipsevm/mips_instructions.go:262-265 | swl writes the leading bytes of the register from its address to the end of the word |
| MipsUnaligned.StoreRightBytes | cannon/mipsevm/mips_instructions.go:268-271 | swr writes the trailing bytes of the register from the start of the word to its address |
| MipsUnaligned.UnalignedStore | cannon/mipsevm/mips_instructions.go:262-271 | two steps, swl at a and swr at a+3 on one register, change exactly the four bytes a to a+3 to the register, across words and around the address space, and nothing else but the program counter |
| MipsUnaligned.PairFromStart | cannon/mipsevm/mips_instructions.go:63-69 | whether two accesses make such a pair can be told from the registers before both, unless the first loads the base of the second |
| MipsUnaligned.UnalignedLoad | cannon/mipsevm/mips_instructions.go:240-253 | two steps, lwl at a and lwr, when its turn comes, at a+3 on the same register, load the four bytes from a whatever the register held, exactly if it is not register 0 or that holds them anyway |
| MipsUnaligned.UnalignedRoundTrip | cannon/mipsevm/mips_instructions.go:240-271 | what the store pair writes the load pair at the same address puts into its own register, register 0 staying as it is |
| Hints.WriteHint | op-preimage/hints.go:21-34 | a hint is framed by its length on four bytes |
| Hints.TurnIsIntended | cannon/mipsevm/mips_syscalls.go:128-139 | one turn of the buffer loop, with its length test and its slice bound computed on 32 bits, does what is intended if and only if the truncated remainder still holds the hint, as it does for all buffers below 2^32 + 4 bytes, and a complete first hint is shorter than 2^32 - 4 bytes |
| Hints.ProcessHints | cannon/mipsevm/mips_syscalls.go:125-139 | the buffer loop delivers and keeps what the decoding function says, and panics where a slice is out of range |
| Hints.DecodeIsParse | cannon/mipsevm/mips_syscalls.go:125-139 | on buffers below 2^32 + 4 bytes the loop of the VM equals the obvious parser of length-prefixed frames, and panics if and only if that finds a hint of 2^32 - 4 bytes or more |
| Hints.LongestHintsPanic | cannon/mipsevm/mips_syscalls.go:130-132 | a complete frame in a buffer of 2^32 bytes on which the loop panics |
| Hints.ParseKeepsBytes | cannon/mipsevm/mips_syscalls.go:125-139 | delivered frames and remainder together are the buffer, and the remainder holds no complete frame |
| Hints.ChunkInvariance | cannon/mipsevm/mips_syscalls.go:125-139 | however a stream is cut into writes, the hints delivered and the bytes kept are those of the whole stream, and the VM has panicked if and only if the stream holds a hint that is too long |
| Hints.HintsArrive | cannon/mipsevm/mips_syscalls.go:125-139 | a list of framed hints, cut anywhere, arrives complete and in order with nothing left over if and only if each is shorter than 2^32 - 4 bytes; until a panic, delivered frames and buffer are the bytes written |
| Preimages.KeyIsLastBytesWritten | cannon/mipsevm/mips_syscalls.go:140-157 | after writes of any sizes the key is the last 32 bytes written |
| Preimages.SessionsAreFaithful | cannon/mipsevm/mips.go:13-27 | in every session of key writes and harmless reads, across key switches and the one-entry cache, the bytes delivered since the last key write are the prefix of length and data as long as the offset, and the slice is in range |
| Preimages.FaithfulReadExactly | cannon/mipsevm/mips.go:13-27 | a read delivers the next bytes and leaves the right offset if and only if it is harmless: not a read of the zero key through a cache that was never filled, and not one that takes the offset to 2^32 |
| Preimages.ReadProgress | cannon/mipsevm/mips_syscalls.go:78-98 | before the end of the preimage, a harmless read that asks for anything advances |
| Preimages.PreimageContents | cannon/mipsevm/mips.go:18-22 | the first eight bytes of an entry are the length of the data, and the rest is the data |
| Preimages.ReadToTheEnd | cannon/mipsevm/mips.go:13-27 | a session of harmless reads that reached the end of a preimage has delivered its length on eight bytes and then exactly the data of the oracle for the key |
| InstrumentedVM.InstrumentedState.HandleJump | cannon/mipsevm/mips_instructions.go:364-375 | panics in a delay slot, otherwise runs the delay slot, then the target, linking the address after it except to register 0 |
| InstrumentedVM.InstrumentedState.HandleBranch | cannon/mipsevm/mips_instructions.go:294-326 | the object branches as the step function does, whose comparison and target `BranchSteps` states in numbers for each of the six instructions |
| InstrumentedVM.InstrumentedState.HandleRd | cannon/mipsevm/mips_instructions.go:377-387 | writes the register unless it is 0 or the condition fails |
| InstrumentedVM.InstrumentedState.HandleHiLo | cannon/mipsevm/mips_instructions.go:328-362 | hi, lo and the destination are those of the hi/lo function, and division by zero panics |
| InstrumentedVM.InstrumentedState.TrackMemAccess | cannon/mipsevm/mips.go:29-37 | records the branch of the address in the memory as it is; the panic on a second, different access is a precondition that every caller meets |
| InstrumentedVM.InstrumentedState.ExecCoreStep | cannon/mipsevm/mips_instructions.go:16-121 | the step over the paged memory ends as the step over flat memory, and the branch recorded is that of the touched word before the step |
| InstrumentedVM.InstrumentedState.ReadPreimageData | cannon/mipsevm/mips.go:13-27 | delivers up to 32 bytes of the cached or fetched preimage and records key and offset |
| InstrumentedVM.InstrumentedState.HandleSysRead | cannon/mipsevm/mips_syscalls.go:68-108 | reads as specified for each descriptor, recording the branch of the word |
| InstrumentedVM.InstrumentedState.HandleSysWrite | cannon/mipsevm/mips_syscalls.go:110-164 | writes as specified for each descriptor: hints are decoded or the buffer makes it panic, key bytes shifted in |
| InstrumentedVM.InstrumentedState.HandlePlainSyscall | cannon/mipsevm/mips.go:39-77 | mmap, brk, clone, exit, fcntl and all unknown calls end as specified |
| InstrumentedVM.InstrumentedState.HandleSyscall | cannon/mipsevm/mips.go:39-77 | every system call ends as specified over flat memory |
| InstrumentedVM.InstrumentedState.MipsStep | cannon/mipsevm/mips.go:122-138 | one step of the instrumented machine ends as one step of the machine over flat memory, panics included |
| InstrumentedVM.InstrumentedState.EncodeState | cannon/mipsevm/state.go:123-145 | the encoded state and its hash, with the root of the flat contents |
| InstrumentedVM.InstrumentedState.Step | cannon/mipsevm/instrumented.go:75-103 | with and without proofs the same state is reached; the witness holds the state before, the 28-entry branches of instruction and touched word before, and the preimage read |
| StepWitnessLaws.Drive | cannon/mipsevm/instrumented.go:75-103 | any sequence of steps, with proofs switched on and off at will, reaches the state of the machine over flat memory, delivers its hints, returns for every step to be proved a witness of the state before that step, and stops where the machine panics |
| MipsStepLaws.StepKeeps | cannon/mipsevm/mips.go:122-138 | a step writes at most the one word it declares, never changes register 0, and an exited machine stays as it is |
| MipsStepLaws.StepIsLocal | cannon/mipsevm/mips.go:122-138 | two states with any caches, hint buffers and oracles that agree on the encoded fields, the instruction word, the touched word and the preimage if one is read, have the same effect if and only if the hint buffer makes both panic or neither |
| MipsStepLaws.RootAfterStep | cannon/mipsevm/instrumented.go:75-103 | the root after a step follows from the branch of the touched word before it and that word after it |
| MipsStepLaws.BranchesSuffice | cannon/mipsevm/instrumented.go:75-103 | stepping from the encoded state over any memory that holds the words of two accepted branches, with the preimage bytes from anywhere, gives the effect and the next root of the real step, or a collision is exhibited |
| MipsStepLaws.RunKeepsRegisterZero | cannon/mipsevm/mips.go:122-138 | over any number of steps register 0 keeps its value |
| MipsStepLaws.StepIsOracleOp | cannon/mipsevm/mips_syscalls.go:68-164 | on key, offset and cache every step of the machine is a read, a key write, or nothing |
| MipsStepLaws.StepIsHintWrite | cannon/mipsevm/mips_syscalls.go:125-139 | on the hint buffer every step of the machine is one decoded write or nothing |
| MipsStepLaws.RunsDeliverHints | cannon/mipsevm/mips_syscalls.go:110-139 | after any number of steps, the hints delivered and the hint buffer are what all bytes written to the hint descriptor parse into |
| MipsStepLaws.RunsReadFaithfully | cannon/mipsevm/mips_syscalls.go:68-157 | after any number of steps of a new machine with harmless reads the guest has received the beginning of the preimage of its current key, as long as the offset says |
| StateWitness.WitnessLayout | cannon/mipsevm/state.go:123-145 | every witness has 226 bytes, root first, key next, exit code and exited flag at 88 and 89 |
| StateWitness.WitnessInjective | cannon/mipsevm/state.go:123-145 | equal witnesses mean equal roots, keys, offsets, program counters, hi, lo, heap, exit fields, steps and registers |
| StateWitness.StateHash | cannon/mipsevm/state.go:156-189 | refuses other lengths than 226; otherwise the hash with its first byte replaced by 3 if byte 89 is not 1, else by 0 or 1 for an exit code of 0 or 1 in byte 88, and by 2 for all others |
| StateWitness.CommitmentTellsStatus | cannon/mipsevm/state.go:163-189 | the first byte of the hash of every state tells whether it has exited, and with which kind of code |
| StateWitness.ExitIsTold | cannon/mipsevm/mips.go:55-58 | after a step that calls exit_group the hash tells 0, 1 or 2 as the low byte of the argument says, and further steps change nothing |
| StateWitness.RunningIsTold | cannon/mipsevm/mips.go:122-138 | after any other step of a running machine it tells 3 |
| StateWitness.WitnessOffsets | cannon/mipsevm/state.go:123-145 | where in the 226 bytes every field is found |
| StateWitness.CommitmentBinding | cannon/mipsevm/state.go:163-189 | equal state hashes mean equal status, and equal committed state unless two inputs agree on 31 bytes of their hash |
| StateWitness.EncodeWitness | cannon/mipsevm/state.go:123-145 | appending field by field gives the encoding and its commitment |
| StepWitnessLaws.WitnessIsAccepted | cannon/mipsevm/instrumented.go:75-103 | both branches of a recorded witness fold to the root in its encoded state and carry the words of the memory before the step |
| StepWitnessLaws.CarriesPreimageIff | cannon/mipsevm/instrumented.go:75-103 | the witness of a step that reads a preimage carries it at the offset of the read if and only if that offset is not 2^32 - 1, the mark for no read |
| StepWitnessLaws.WitnessSuffices | cannon/mipsevm/instrumented.go:75-103 | from a recorded witness alone the effect of the step and the next memory root are determined, or a collision is exhibited: from every state that encodes to the witness, over every memory with its two words, any hint buffer and cache, and every oracle that answers with its preimage bytes |
| Commitments.DecodeEncode | op-plasma/commitment.go:72-154 | decoding inverts encoding for every commitment but the empty generic one, and only encodings decode |
| Commitments.EncodingBytes | op-plasma/commitment.go:72-154 | a Keccak commitment is type byte 0 and the 32-byte hash, a generic one type byte 1 and its bytes |
| Commitments.KeysEqualIff | op-plasma/dastate.go:44-46 | two challenges share a key if and only if the longer encoding ends in the shorter and its first bytes in hex, written after its block number, give the other block number |
| Text.DecimalReads | op-plasma/dastate.go:44-46 | the block number in a key reads back in decimal, without leading zeros |
| Text.HexReads | op-plasma/dastate.go:44-46 | every byte in a key is two digits, the upper half first |
| Commitments.KeyInjective | op-plasma/dastate.go:44-46 | so commitments with equally long encodings share a key only if they and their blocks are equal |
| Commitments.KeccakKeyInjective | op-plasma/dastate.go:44-46 | for Keccak commitments keys are equal if and only if commitment and block are |
| Commitments.GenericKeysCollide | op-plasma/dastate.go:44-46 | two generic commitments of different lengths that meet that condition |
| DaLedger.ExpiredPrefix | op-plasma/dastate.go:153-182 | the longest prefix of commitments that have all expired, stopped at the first that has not |
| DaLedger.ResolveKeepsVerified | op-plasma/dastate.go:109-117 | a resolution that verifies reaches, by its key, only a challenge that its input satisfies too, so every resolved input satisfies its own commitment |
| DaLedger.ExpireReachesOrigin | op-plasma/dastate.go:188-207 | because windows end in order, expiring a prefix expires everything due by the block and nothing else |
| DaLedger.DroppedWhen | op-plasma/dastate.go:97-207 | a challenge is dropped at the first block by which its stored end and those of all challenges before it have passed |
| DaLedger.ExpireTwice | op-plasma/dastate.go:188-207 | expiring block by block drops the same challenges as expiring at the last of these blocks |
| DaLedger.DroppedOnTimeIff | op-plasma/dastate.go:97-207 | at any later block, whether a challenge is dropped is what its true window says, ending at block plus resolve window without wrap-around, if and only if that sum fits in 64 bits or an earlier window is still open to hold it back |
| DaLedger.WindowHonouredIff | op-plasma/dastate.go:97-207 | a challenge is dropped at the end of its true window, neither before nor after, if and only if that end fits in 64 bits |
| DaLedger.LostAtOnce | op-plasma/dastate.go:97-207 | otherwise: a challenge lost in the block that creates it, one block before its window ends |
| DaLedger.StoredEndsInOrderIff | op-plasma/dastate.go:97-207 | the stored, possibly wrapped ends stay in order, as far as expiry at the block can tell, if and only if the new one does not wrap or no earlier window is open |
| DaLedger.ActivePartIsOpen | op-plasma/dastate.go:188-207 | the active queue is exactly the unpruned challenges whose resolve window is still open, in order |
| DaLedger.PruneChallengesKeeps | op-plasma/dastate.go:245-258 | pruning drops a prefix and keys, and changes no record |
| DaState.State.CreateChallenge | op-plasma/dastate.go:97-106 | appends an active challenge to the log and lets its key point to it |
| DaState.State.ResolveChallenge | op-plasma/dastate.go:109-117 | through the shared object, changes exactly the challenge under the key, or fails without one |
| DaState.State.TrackCommitment | op-plasma/dastate.go:120-127 | appends the commitment with the end of its challenge window |
| DaState.State.GetChallengeStatus | op-plasma/dastate.go:130-142 | the status of the challenge under the key, uninitialized without one |
| DaState.State.ExpireCommitments | op-plasma/dastate.go:153-182 | moves exactly the maximal expired prefix, and reports a reorganisation exactly if one of the moved had an unresolved challenge |
| DaState.State.ExpireChallenges | op-plasma/dastate.go:188-207 | moves the due prefix and marks those still active as expired, also for whoever looks them up by key |
| DaState.State.Prune | op-plasma/dastate.go:210-214 | prunes commitments first, then challenges |
| DaState.State.PruneCommitments | op-plasma/dastate.go:218-241 | drops the maximal expired prefix and remembers the last inclusion block dropped |
| DaState.State.PruneChallenges | op-plasma/dastate.go:245-258 | drops the due prefix together with its keys |
| DaState.State.ClearCommitments | op-plasma/dastate.go:81-84 | forgets commitments and keeps all challenges |
| DaState.State.Reset | op-plasma/dastate.go:87-93 | forgets everything but the last pruned block |
| DaState.State.NoCommitments | op-plasma/dastate.go:145-147 | true exactly if all four queues are empty |
| DaManager.DA.LoadChallengeEvents | op-plasma/damgr.go:330-394 | the events of a block in order, skipping what does not decode, match or verify; nothing changes if fetching fails |
| DaManager.DA.AdvanceChallengeOrigin | op-plasma/damgr.go:263-282 | ignores old blocks, otherwise loads events, then expires, then moves the origin |
| DaManager.DA.AdvanceCommitmentOrigin | op-plasma/damgr.go:285-305 | on a required reorganisation sets the resetting flag and keeps the origin |
| DaManager.DA.AdvanceL1Origin | op-plasma/damgr.go:311-327 | challenges before commitments, then the finalized head if nothing is tracked |
| DaManager.DA.GetInput | op-plasma/damgr.go:193-260 | the object tracks and answers as the step function does, which `InputAnswers` and `InputIsTracked` state case by case |
| DaManager.DA.LookAhead | op-plasma/damgr.go:162-169 | syncs the challenges of the next block without touching commitments |
| DaManager.DA.Reset | op-plasma/damgr.go:172-189 | after a required reorganisation only commitments are cleared, after an L1 reorganisation everything |
| DaManager.DA.Finalize | op-plasma/damgr.go:117-157 | prunes to the finalized block and takes the last pruned commitment as finalized head |
| DaManager.DA.UpdateFinalizedFromL1 | op-plasma/damgr.go:127-138 | the finalized head moves only once L1 finality is past the challenge window |
| DaRuns.RunKeepsTimely | op-plasma/damgr.go:172-327 | in every run, resets and look-ahead included, challenges stay ordered and are expired exactly up to the challenge origin |
| DaRuns.ActiveQueueInEveryRun | op-plasma/dastate.go:188-207 | after any run of a new manager the active queue is exactly the open unpruned challenges and no expired entry is active |
| DaRuns.ReorgExactlyForExpired | op-plasma/damgr.go:263-327 | advancing asks for a reorganisation if and only if a commitment that expires now has an expired challenge; a commitment with an open challenge never expires |
| DaRuns.MovedIffDue | op-plasma/dastate.go:153-182 | a call moves a commitment to the expired part if and only if it syncs challenges to a block past the commitment origin and that commitment and all active ones before it expire by the block |
| DaRuns.ReorgsInEveryRun | op-plasma/damgr.go:172-327 | in every run of a new manager, with resets, look-ahead and finalization anywhere, a call asks for a reorganisation if and only if it expires commitments and a due one has an expired challenge |
| DaSafety.LostInputSkipped | op-plasma/damgr.go:198-204 | an input whose challenge expired is skipped and changes nothing |
| DaSafety.NoReorgLoop | op-plasma/damgr.go:172-207 | after the reset for a required reorganisation the lost commitment is skipped and never tracked again, through any run, until its challenge is pruned, the contract reports on it again or L1 reorganises |
| DaSafety.RunKeepsVerified | op-plasma/damgr.go:344-384 | in every run whose events carry Keccak commitments, or others with keys that no Keccak commitment has, all resolved inputs satisfy their own commitments |
| DaSafety.ServedInputVerifies | op-plasma/damgr.go:242-251 | after any such run, data served for a Keccak commitment that storage lacks hashes to that commitment |
| DaSafety.FinalizationInOrder | op-plasma/dastate.go:218-241 | without resets and with commitments tracked in order, the last pruned block never goes back and nothing still tracked was included before it |
| DaTracking.InputAnswers | op-plasma/damgr.go:193-260 | the answer to a request by commitment type, challenge status, storage answer and window, in both directions |
| DaTracking.InputIsTracked | op-plasma/damgr.go:200-207 | an input answered as expired changes nothing; any other is tracked with the end of its challenge window, and nothing else is |
| DaTracking.UsedInputsAreTracked | op-plasma/damgr.go:172-327 | in every run of a new manager, an input whose data was answered is tracked, with its window, after any further calls, as long as no reset follows |
| DaTracking.UsedInputsAreDecided | op-plasma/damgr.go:172-327 | and if it is not waiting for its windows any more, an advance decided it: not while its challenge was open, and with a reorganisation if the challenge had expired; so no input that was used is lost silently |
| DaTracking.UnresolvedForcesReorg | op-plasma/damgr.go:263-327 | in every run, if a tracked commitment has an unresolved challenge and the contract reports nothing more about it, the advance at which the commitment leaves the active part answers that a reorganisation is required, unless finalization pruned the challenge before |
| DaTracking.ResolvedNeverForcesReorg | op-plasma/damgr.go:263-327 | in every run, a tracked commitment whose challenge is resolved, and of which the contract reports nothing more, counts for no reorganisation at any later time |
| DaTracking.EventMeaning | op-plasma/damgr.go:337-393 | with Keccak commitments, an event of status 1 opens a challenge that ends the resolve window after its block, one of status 2 with an input that checks out resolves the challenge against the commitment and block it names, and no other changes anything |
| DaTracking.ExpiryMeaning | op-plasma/dastate.go:153-182 | a commitment expires with the resolve window of its challenge, or with its own challenge window if there is none |
| DaTracking.FinalizeMeaning | op-plasma/damgr.go:117-122 | finalization drops exactly the expired commitments before the first that expires after the block, and the finalized head becomes the inclusion block of the last one dropped |
| DaTracking.FinalizeForgetsChallenges | op-plasma/dastate.go:245-258 | and forgets exactly the expired challenges before the first whose window ends after the block, with their keys |
| DaTracking.FinalizedFollowsL1 | op-plasma/damgr.go:127-138 | with nothing tracked, the finalized head becomes the fetched block if L1 is finalized at least a challenge window high, and stays otherwise |
| DaTracking.FinalizedWhileIdle | op-plasma/damgr.go:311-327 | an advance that succeeds moves the finalized head if and only if every commitment and challenge is pruned and L1 is finalized a challenge window high |
| DaTracking.ResetMeaning | op-plasma/damgr.go:172-189 | a reset after a required reorganisation forgets exactly the commitments, any other forgets the challenges too, and both set the commitment origin |
| DaTracking.OriginsAdvance | op-plasma/damgr.go:311-327 | an advance that succeeds has moved both origins up to the block; one that asks for a reorganisation leaves the commitment origin and sets the resetting flag |
| TxIds.NumberReadsBack | op-batcher/batcher/tx_data.go:85-102 | a frame number followed by anything that can follow one, even at once by the next channel in hex, can be read back |
| TxIds.StringOf | op-batcher/batcher/tx_data.go:85-102 | the loop builds the key piece by piece |
| TxIds.KeyLooksLike | op-batcher/batcher/tx_data.go:85-102 | the key of one and of two frames, written out |
| TxIds.TxStringInjective | op-batcher/batcher/tx_data.go:75-102 | transactions have one key only if they consist of the same frames in the same order, the zero channel identifier included |
| Channels.IdOf | op-batcher/batcher/tx_data.go:25-31 | the frame identifiers in order |
| Channels.ChannelBuilder.constructor | op-batcher/batcher/channel_builder.go:88-112 | a new builder is empty, with the duration deadline unless durations are off |
| Channels.ChannelBuilder.SetTimeout | op-batcher/batcher/channel_builder.go:259-264 | the earlier deadline wins and brings its reason, 0 standing for none |
| Channels.ChannelBuilder.AddBlock | op-batcher/batcher/channel_builder.go:170-215 | a full channel takes nothing; otherwise the block is kept exactly if the output accepted it |
| Channels.ChannelBuilder.FramePublished | op-batcher/batcher/channel_builder.go:227-230 | registers the deadline that the inclusion of a frame implies |
| Channels.ChannelBuilder.CheckTimeout | op-batcher/batcher/channel_builder.go:268-278 | marks the channel full exactly when a deadline is set and reached |
| Channels.ChannelBuilder.OutputFrame | op-batcher/batcher/channel_builder.go:362-388 | appends the frame with the next number on 16 bits |
| Channels.ChannelBuilder.OutputFrames | op-batcher/batcher/channel_builder.go:316-357 | takes over ready frames, or all frames of a closed output, in order |
| Channels.ChannelBuilder.NextFrame | op-batcher/batcher/channel_builder.go:422-430 | takes the first frame off the queue |
| Channels.ChannelBuilder.PushFrames | op-batcher/batcher/channel_builder.go:434-441 | puts frames back at the end of the queue; frames of another channel, which would panic, never arrive |
| Channels.Channel.constructor | op-batcher/batcher/channel.go:37-51 | a new channel conserves its frames trivially |
| Channels.Channel.TxFailed | op-batcher/batcher/channel.go:55-68 | returns the frames of a pending transaction to the queue and keeps frames conserved |
| Channels.Channel.UpdateInclusionBlocks | op-batcher/batcher/channel.go:111-129 | afterwards the cached blocks are the least and greatest inclusion blocks |
| Channels.Channel.IsTimedOut | op-batcher/batcher/channel.go:134-138 | true if and only if two confirmed transactions are at least the channel timeout apart or, before anything is confirmed, the timeout is 0 |
| Channels.Channel.IsFullySubmitted | op-batcher/batcher/channel.go:141-145 | true if and only if the channel is full and nothing is queued or pending |
| Channels.Channel.TxConfirmed | op-batcher/batcher/channel.go:74-103 | moves the transaction to the confirmed ones and reports a timeout with all blocks, completion, or neither; unknown transactions change nothing |
| Channels.Channel.HasTxData | op-batcher/batcher/channel.go:176-182 | whether there is data for a transaction |
| Channels.Channel.NextTxData | op-batcher/batcher/channel.go:161-174 | takes frames off the queue up to the limit, registers them as pending under a key not in use, and keeps frames conserved |
| Channels.Channel.OutputFrames | op-batcher/batcher/channel.go:220-222 | produces frames and keeps them conserved |
| ChannelLaws.ExactlyOnePlace | op-batcher/batcher/channel.go:55-174 | every frame produced is in the queue, in a pending or in a confirmed transaction, exactly once in all |
| ChannelLaws.KeyNotInUse | op-batcher/batcher/channel.go:161-174 | the key of the next transaction is not the key of a pending one |
| ChannelLaws.FailedFramesBelong | op-batcher/batcher/channel_builder.go:434-441 | the frames of a failed transaction belong to the channel, so putting them back cannot panic |
| ChannelLaws.RunKeepsSound | op-batcher/batcher/channel.go:55-174 | frames are conserved in every run, in any order of building, sending, failing and confirming |
| ChannelLaws.DoneMeansSubmitted | op-batcher/batcher/channel.go:74-145 | after any run, a channel reported done without a timeout is full, all frames it ever produced are in confirmed transactions, and those were included within the channel timeout |
| ChannelLaws.NumberIsFreshIff | op-batcher/batcher/channel_builder.go:362-388 | the next frame gets a number of its own if and only if fewer than 2^16 frames were produced |
| ChannelLaws.TimeoutIsEarliest | op-batcher/batcher/channel_builder.go:227-264 | the timeout is the earliest of all deadlines registered since the last one of 0, which makes all before it forgotten |
| BatcherMeaning.NewBuilderMeans | op-batcher/batcher/channel_builder.go:88-112 | a new builder is empty and must be closed the maximal duration after the L1 origin, if there is one |
| BatcherMeaning.AddBlockMeans | op-batcher/batcher/channel_builder.go:170-215 | by what the output answers: the blocks, the reason for being full, the latest L1 origin and the deadline of the sequencing window less the margin |
| BatcherMeaning.FramePublishedMeans | op-batcher/batcher/channel_builder.go:227-230 | inclusion at a block sets the deadline block plus channel timeout less the margin, and nothing else |
| BatcherMeaning.CheckTimeoutMeans | op-batcher/batcher/channel_builder.go:268-278 | a channel becomes full exactly once L1 reaches a deadline that was set, with its reason |
| BatcherMeaning.ClosesAtDeadlines | op-batcher/batcher/channel_builder.go:227-278 | in every run of a channel, checking an open one at an L1 block closes it if and only if a deadline is reached: of its duration, of the sequencing window of a block it accepted, or of the channel timeout after a confirmation; only a deadline that wraps to 0 makes earlier ones forgotten |
| BatcherMeaning.OutputsInOrder | op-batcher/batcher/channel_builder.go:332-388 | all data the output hands over joins the queue in its order, numbered on |
| BatcherMeaning.LastNumberCloses | op-batcher/batcher/channel_builder.go:374-378 | the frame with the last 16-bit number makes the channel full, no other does |
| BatcherMeaning.OutputMeans | op-batcher/batcher/channel_builder.go:316-357 | what is taken over when the channel is open, full and closing, or full and failing to close |
| BatcherMeaning.TxMeans | op-batcher/batcher/channel.go:161-182 | a transaction takes frames from the front, one or up to the target number, and waits for that number unless the channel is full; it is pending under its own key |
| BatcherMeaning.FailMeans | op-batcher/batcher/channel.go:55-68 | the frames of a failed transaction join the end of the queue in order |
| BatcherMeaning.ConfirmMeans | op-batcher/batcher/channel.go:74-103 | a confirmation records its block, and the channel is done exactly if it timed out or is full with nothing queued or pending |
| ManagerLaws.RunKeepsNoLoss | op-batcher/batcher/channel_manager.go:79-349 | in every run, under any order of requests, failures, confirmations, timeouts and errors, every block taken in is waiting, in a queued channel, or in a channel reported fully submitted |
| SubmissionLaws.RunSettles | op-batcher/batcher/channel_manager.go:79-332 | in every run, an open channel has not closed its output, the output of a full one either ended or failed unless the frame numbers ran out, and a channel reported fully submitted never changes again |
| SubmissionLaws.SubmittedMeansDelivered | op-batcher/batcher/channel.go:74-145 | a channel reported fully submitted has all its frames in confirmed transactions, and unless the frame numbers ran out, the last frame of its output is among them if and only if closing the output did not fail |
| SubmissionLaws.EveryBlockAccountedFor | op-batcher/batcher/channel_manager.go:79-349 | from a cleared manager, in every run, every block taken in is waiting, in a queued channel, or in a channel delivered in that sense |
| SubmissionLaws.FailedCloseIsReportedDone | op-batcher/batcher/channel.go:74-145 | a run of a channel in which the output could not be closed and never ended, and the channel is reported done all the same, with a block in it and only one frame confirmed |
| SubmissionLaws.BlockInNoFrame | op-batcher/batcher/channel_manager.go:99-332 | a run of the manager that ends with nothing waiting and nothing queued, and with a block in a channel reported fully submitted whose only frame was produced before the block was taken in |
| ManagerLaws.ProcessKeepsNoLoss | op-batcher/batcher/channel_manager.go:241-287 | blocks leave the manager only into the current channel, and on an error none leaves |
| ManagerLaws.ConfirmKeepsNoLoss | op-batcher/batcher/channel_manager.go:99-134 | a channel leaves the queue only with its blocks handed back or fully submitted |
| ManagerLaws.RunConsistent | op-batcher/batcher/channel_manager.go:79-196 | in every run a failure or confirmation reaches exactly the channel that has the transaction in flight, and all channels conserve their frames |
| BlockOrder.AcceptedIsChain | op-batcher/batcher/channel_manager.go:337-349 | in every run the blocks taken in form a chain of parent hashes, and a block is taken in exactly if it extends that chain or there is no last hash |
| BlockOrder.BlocksComeBackFirst | op-batcher/batcher/channel_manager.go:99-115 | the blocks of a channel that a confirmation finds timed out come back in order in front of those waiting, and otherwise none does |
| BlockOrder.BlocksStayInOrder | op-batcher/batcher/channel_manager.go:99-349 | in every orderly run, the blocks of the channels in the order these were opened, without those handed back, followed by the waiting blocks, are exactly the blocks taken in, in order |
| BlockOrder.BlocksStayInOrderWithoutReturns | op-batcher/batcher/channel_manager.go:241-349 | in particular, all channels together and the waiting blocks are the blocks taken in, if no channel is handed back and no request fails halfway |
| BlockOrder.CallKeepsOrderIff | op-batcher/batcher/channel_manager.go:99-349 | from any state in order whose blocks are distinct, a call keeps the order if and only if it is no request that fails after adding a block, and hands back no channel but the last that holds blocks |
| BlockOrder.HalfwayRepeatsBlocks | op-batcher/batcher/channel_manager.go:247-254 | a request that fails at its second block: the first is then in the channel and still waiting |
| BatcherMeaning.FirstIsFirst | op-batcher/batcher/channel_manager.go:155-161 | the channel found is the first in the queue that has data, and none is found only if none has |
| BatcherMeaning.FramedDataFirst | op-batcher/batcher/channel_manager.go:152-169 | a request is answered with the next transaction of that channel before any waiting block is looked at |
| BatcherMeaning.NothingToSend | op-batcher/batcher/channel_manager.go:166-176 | with no framed data, a closed manager and one without blocks answer that there is nothing |
| BatcherMeaning.OriginIsNoted | op-batcher/batcher/channel_manager.go:289-300 | the origin that later channels count their duration from becomes that of a full channel whose frames are out, if it is later |
| BatcherMeaning.DeadlineCloses | op-batcher/batcher/channel_manager.go:182-195 | after a request that framed blocks, a channel whose deadline the L1 head has reached, even one set by those blocks, is full |
| BatcherMeaning.ChannelOpens | op-batcher/batcher/channel_manager.go:201-227 | a channel is opened exactly if there is none or the current one is full; it is empty, current and last in the queue |
| BatcherMeaning.FailureMeans | op-batcher/batcher/channel_manager.go:79-93 | a failure reaches the channel of the transaction only, which is dropped exactly if the manager is closed and it has nothing submitted |
| BatcherMeaning.DoneChannelLeaves | op-batcher/batcher/channel_manager.go:99-134 | a channel that is done leaves the queue and is not current any more, any other stays |
| ChannelManagers.ChannelManager.Clear | op-batcher/batcher/channel_manager.go:64-75 | everything is forgotten |
| ChannelManagers.ChannelManager.AddL2Block | op-batcher/batcher/channel_manager.go:337-349 | accepts a block exactly if it extends the last one accepted or none was |
| ChannelManagers.ChannelManager.RemovePendingChannel | op-batcher/batcher/channel_manager.go:118-134 | removes the channel from the queue and as current channel, and nothing else |
| ChannelManagers.ChannelManager.TxFailed | op-batcher/batcher/channel_manager.go:79-93 | hands the failure to the channel of the transaction; after closing, a channel with nothing submitted is dropped |
| ChannelManagers.ChannelManager.TxConfirmed | op-batcher/batcher/channel_manager.go:99-115 | the object goes through a confirmation as the step function does, which `BlocksComeBackFirst` and `DoneChannelLeaves` state field by field |
| ChannelManagers.ChannelManager.NextTxData | op-batcher/batcher/channel_manager.go:137-145 | takes a transaction from the channel and routes its key to it |
| ChannelManagers.ChannelManager.FindWithData | op-batcher/batcher/channel_manager.go:155-161 | the first queued channel that has data for a transaction |
| ChannelManagers.ChannelManager.EnsureChannelWithSpace | op-batcher/batcher/channel_manager.go:201-227 | the current channel if it has space, otherwise a new one at the end of the queue |
| ChannelManagers.ChannelManager.ProcessBlocks | op-batcher/batcher/channel_manager.go:241-287 | adds waiting blocks until the channel is full, one fails or none is left |
| ChannelManagers.ChannelManager.RegisterL1Block | op-batcher/batcher/channel_manager.go:230-237 | checks the timeout of the current channel |
| ChannelManagers.ChannelManager.OutputFrames | op-batcher/batcher/channel_manager.go:289-332 | creates frames and, when the channel is full, advances the last closed origin |
| ChannelManagers.ChannelManager.TxData | op-batcher/batcher/channel_manager.go:152-196 | framed data goes first, otherwise waiting blocks are turned into frames, with every error left recoverable |
| DisputeTree.LeftmostCorrect | op-dispute-mon/mon/resolve.go:20-28 | the child picked is uncountered, has the least index, and is the first such; none is picked only if all are countered |
| DisputeTree.CounteredIff | op-dispute-mon/mon/resolve.go:15-36 | a claim ends countered exactly when it was countered at first or some child ends uncountered, if and only if its leftmost uncountered child is not claimed under the zero address |
| DisputeTree.AlwaysAsMeantIff | op-dispute-mon/mon/resolve.go:15-36 | in a tree, that holds whatever was countered at first, if and only if none of the claim's own children is claimed under the zero address |
| DisputeTree.ZeroClaimantIsOverlooked | op-dispute-mon/mon/resolve.go:15-36 | two claims, the second under the zero address, that both end uncountered although the second answers the first |
| DisputeTree.CounterExactly | op-dispute-mon/mon/resolve.go:15-36 | the final counter is the claimant of the leftmost uncountered child, or the initial one if there is none, also with zero claimants |
| DisputeTree.CounterOf | op-dispute-mon/mon/resolve.go:16-29 | the inner loop computes the recursive definition from the resolved children |
| DisputeTree.Resolve | op-dispute-mon/mon/resolve.go:15-36 | the reverse scan in place leaves every claim as the recursive definition says, and the status is that of the root |
| DisputeTree.ResolveTwice | op-dispute-mon/mon/resolve.go:15-36 | resolving a resolved tree changes nothing |
| DisputeTree.CreateTree | op-dispute-mon/mon/transform/tree.go:10-27 | every claim's children are exactly the later claims whose parent index names it, as the last claim with that contract index so far, in order |
| DisputeTree.BuiltIsTree | op-dispute-mon/mon/transform/tree.go:10-27 | no claim is a child of two others |
| DisputeClaims.ResolvableIff | op-dispute-mon/mon/claims.go:103-123 | a claim is resolvable if and only if its own clock and the clocks of all its descendants have expired |
| DisputeClaims.MinTimeAttained | op-dispute-mon/mon/claims.go:109-113 | the minimum tracked for a claim is the accumulated time of some claim below it |
| DisputeClaims.ClaimMonitor.UpdateHonestActorStats | op-dispute-mon/mon/claims.go:55-77 | every honest actor's record grows by its share of the claim |
| DisputeClaims.ClaimMonitor.CheckClock | op-dispute-mon/mon/claims.go:95-123 | one step of the reverse pass: the status by the recursive minimum, and the minimum passed on to the parent |
| DisputeClaims.ClaimMonitor.CheckGameClaims | op-dispute-mon/mon/claims.go:79-134 | one reverse pass records the status of every claim and the share of every honest actor |
| DisputeClaims.ClaimMonitor.CheckClaims | op-dispute-mon/mon/claims.go:36-53 | the totals over all games |
| DisputeClaims.TallyAddsUp | op-dispute-mon/mon/claims.go:55-77 | pending, valid and invalid counts of an actor add up to the number of its claims, and pending and lost bonds to the bonds of the claims that did not stand |
| DisputeClaims.PendingAre | op-dispute-mon/mon/claims.go:55-77 | the pending count is the number of unresolved claims of the actor, and the pending bonds are theirs |
| DisputeClaims.ValidAre | op-dispute-mon/mon/claims.go:55-77 | the valid count is the number of claims of the actor resolved without a counter |
| DisputeClaims.InvalidAre | op-dispute-mon/mon/claims.go:55-77 | the invalid count is the number of claims of the actor resolved with one, and the lost bonds are theirs |
| DisputeClaims.WonAre | op-dispute-mon/mon/claims.go:55-77 | the won bonds are those of the resolved claims that the actor countered |
| DisputeClaims.StatusMeans | op-dispute-mon/mon/claims.go:95-134 | the status recorded for a claim: its clock has run out, all clocks below it have, it is resolved, and the game is in its first half, each as numbers |
| DisputeClaims.AllTallyAddsUp | op-dispute-mon/mon/claims.go:36-77 | the same counts and bonds over all games |
| DisputeClaims.AllTallyIsOfAllClaims | op-dispute-mon/mon/claims.go:36-77 | the record over all games is that of all their claims together |
| ConductorFsm.ReplayFindsFirstGreatest | op-conductor/consensus/raft_fsm.go:31-49 | replaying a log ends with the first payload of greatest block number, or none if no entry decodes |
| ConductorFsm.EntryReplacesIff | op-conductor/consensus/raft_fsm.go:31-49 | an entry replaces the head if and only if it is not empty, decodes, and has a greater number than the head, if there is one |
| ConductorFsm.ReplayOverlap | op-conductor/consensus/raft_fsm.go:31-69 | restoring a state and replaying from any earlier point gives the state of a full replay |
| ConductorFsm.UnsafeHeadTracker.Apply | op-conductor/consensus/raft_fsm.go:31-49 | refuses empty and undecodable entries, otherwise keeps the higher block, the older on ties |
| ConductorFsm.UnsafeHeadTracker.Restore | op-conductor/consensus/raft_fsm.go:52-69 | takes over a decodable snapshot and leaves the head alone otherwise |
| ConductorFsm.UnsafeHeadTracker.Snapshot | op-conductor/consensus/raft_fsm.go:72-106 | the serialization of the current head; without one persisting panics |
| ConductorFsm.Handle | op-conductor/consensus/raft_fsm.go:31-106 | applying, saving and restoring move the tracker object as the run function says |
| ConductorFsm.EveryRunFindsFirstGreatest | op-conductor/consensus/raft_fsm.go:31-106 | with snapshots saved at any moments, old ones restored any number of times and the log applied again from at or before them, also in the middle of a replay, the head is the first greatest payload of the log so far, and of the whole log once that is applied |
| ConductorRuns.ActionStartsOnHead | op-conductor/conductor/service.go:702-770 | a turn that commands a start is an action of a leader that is neither paused nor active, on the first greatest payload of the log so far, which the node has, or lacks alone and was successfully given just before |
| ConductorRuns.EveryStartIsOnHead | op-conductor/conductor/service.go:515-770 | in every run in which log entries, snapshots, restores and turns of the loop mix in any way, every start command ever given was given so |
| ConductorRuns.RunKeepsAwake | op-conductor/conductor/service.go:515-683 | in every run, a loop awake at some moment is awake at the end, unless a resume request times out after it in a state where that loses the wake-up |
| ConductorRuns.RunWakesAgain | op-conductor/conductor/service.go:515-683 | whatever was lost before, the next leader update, failing health report or resume wakes the loop again |
| ConductorRuns.Drive | op-conductor/conductor/service.go:417-770 | the conductor and tracker objects go through every run as the state does, resume requests that time out included |
| ConductorLoop.StartedWasCommanded | op-conductor/conductor/service.go:702-740 | a start that succeeds did command the sequencer to start |
| ConductorLoop.SettledMeansNothingToDo | op-conductor/conductor/service.go:572-661 | a follower that is not sequencing and a healthy leader that is are left alone: an action changes nothing and gives no command, whatever the answers |
| ConductorLoop.UnsettledMeansSomethingToDo | op-conductor/conductor/service.go:572-661 | outside the settled states an action whose commands succeed changes the status, except for a recovering leader that waits |
| ConductorLoop.TurnKeepsAwakeIff | op-conductor/conductor/service.go:417-661 | a turn keeps the wake-up (unless paused, an action is queued, nothing is to be done, or the node is an unhealthy leader) if and only if it is not a refresh whose resume request times out, or something else will wake the loop, or the refreshed status agrees with leadership |
| ConductorLoop.LostLoopWakesIff | op-conductor/conductor/service.go:417-661 | a loop that lost its wake-up is awake after a turn if and only if that is a leader update, a failing health report, a passing one of an unhealthy node, a resume, a refresh that agrees with leadership, or a pause |
| ConductorLoop.HealthReportWakesUnhealthy | op-conductor/conductor/service.go:554-569 | for an unhealthy leader the next health report queues an action, whatever it says |
| ConductorActions.ReportsMean | op-conductor/conductor/service.go:546-569 | what health reports, leader updates, pauses, refreshes and resumes set, and which of them queue an action |
| ConductorActions.HealthyLeaderStarts | op-conductor/conductor/service.go:641-643 | a turn of a healthy leader that does not sequence starts it, or queues a retry if consensus has no head, the node is not on it or one behind, or a command fails |
| ConductorActions.UnhealthyLeaderGivesUp | op-conductor/conductor/service.go:611-640 | a turn of an unhealthy leader that sequences waits, if at the last successful action it was an unhealthy idle leader and the sequencer can be reached, and otherwise stops and transfers leadership, with a retry if either fails |
| ConductorActions.GivesUpIff | op-conductor/conductor/service.go:611-640 | with commands that succeed it ends as an idle follower if and only if that exception does not apply |
| ConductorActions.UnhealthyIdleLeader | op-conductor/conductor/service.go:594-610 | a turn of an unhealthy leader that does not sequence starts it exactly if at the last successful action it was an idle follower, the sequencer can be reached and the start works, and otherwise transfers leadership |
| ConductorActions.FollowerStops | op-conductor/conductor/service.go:583-593 | a turn of a follower that sequences stops it or retries; settled states are left alone |
| ConductorActions.FailsOver | op-conductor/conductor/service.go:554-661 | a healthy sequencing leader whose check fails neither leads nor sequences after the next action, and does not retry, if the commands succeed |
| ConductorActions.TakesOverThenGivesUp | op-conductor/conductor/service.go:546-661 | a follower made leader while unhealthy starts sequencing, keeps waiting while checks fail, and gives up once the sequencer cannot be reached |
| ConductorLoop.RefreshCanLoseWakeUp | op-conductor/conductor/service.go:417-431 | a concrete state in which such a request loses it |
| ConductorLoop.OpConductor.StartSequencer | op-conductor/conductor/service.go:702-770 | gives the commands and takes the status that the start specification says for the head of the tracker |
| ConductorLoop.OpConductor.StopSequencer | op-conductor/conductor/service.go:685-700 | inactive afterwards unless stopping failed for another reason than being stopped already |
| ConductorLoop.OpConductor.TransferLeader | op-conductor/conductor/service.go:664-683 | gives up leadership on success; not being leader is no failure and changes nothing |
| ConductorLoop.OpConductor.Perform | op-conductor/conductor/service.go:578-646 | the object acts as the step function does, which the rows on actions below state for each combination of leadership, health, activity and remembered status |
| ConductorLoop.OpConductor.RunQueuedAction | op-conductor/conductor/service.go:572-661 | consumes the token and adds the commands of the action to those given; queues a retry on failure, remembers the status otherwise |
| ConductorLoop.OpConductor.HandleHealthUpdate | op-conductor/conductor/service.go:554-569 | queues an action on every failing report and on every change, from any state |
| ConductorLoop.OpConductor.HandleLeaderUpdate | op-conductor/conductor/service.go:546-551 | always queues an action, from any state |
| ConductorLoop.OpConductor.Resume | op-conductor/conductor/service.go:417-431 | changes nothing if the status cannot be refreshed, only refreshes if the request times out, otherwise also unpauses and queues an action |

## Left out

- MemReaders.MemReader.Read: requires that the range does not wrap around into the page it starts in; `SliceInRange` shows that the slice is out of range exactly there.
- StepWitnessLaws.Drive: requires what Step requires of every step of the run.
- InstrumentedVM.InstrumentedState.Step: requires the same of ranges written to standard output, standard error and the hint descriptor, and does not model what is printed, the debug call stack or the trace-back.
- Hints.ChunkInvariance: is about buffers below 2^32 + 4 bytes; `TurnIsIntended` says when a turn on a longer one goes wrong.
- PagedMemory.Memory.SetMemoryRange: requires what `LoadKeepsInvIff` shows to be needed, page by page.
- PagedMemory.Memory.MerkleizeSubtree: requires a node index of at most 28 bits; the source panics above that.
- DaRuns.RunKeepsTimely: is about block numbers for which adding the resolve window does not overflow 64 bits; `WindowHonouredIff` shows that otherwise a challenge is not dropped on time, so what the theorem says is false there.
- DaSafety.ServedInputVerifies: takes challenge events to carry Keccak commitments, which is all the challenge contract accepts (packages/contracts-bedrock/src/L1/DataAvailabilityChallenge.sol), or keys that no Keccak commitment has.
- ChannelLaws.RunKeepsSound: takes a channel to have at most 2^16 frames, as the source comments do; `NumberIsFreshIff` says that beyond them numbers repeat.
- Channels.Channel.OutputFrames: requires that the channel output hands over at most 2^16 frames in all.
- Channels.Channel.NextTxData: requires data for a transaction, as the source asks of its callers.
- ChannelManagers.ChannelManager.TxData: requires unused identifiers for new channels, which the source draws at random, and at most 2^16 frames for each; so does the run theorem `RunConsistent`, while `RunKeepsNoLoss` requires neither.
- ManagerLaws.RunKeepsNoLoss: speaks of blocks lost, not of blocks sent twice; after a timeout a late confirmation can return blocks again.
- BlockOrder.BlocksStayInOrder: is about orderly runs; `CallKeepsOrderIff` says exactly which calls break the order, and `HalfwayRepeatsBlocks` is an input where adding fails after a block was accepted.
- BlockOrder.CallKeepsOrderIff: takes the blocks to be distinct, without which equal blocks could change places unnoticed.
- DaTracking.UsedInputsAreTracked: is about calls without a reset, which forgets all commitments by design.
- DaTracking.UsedInputsAreDecided: is about block numbers without 64-bit overflow, as `RunKeepsTimely` is.
- DaTracking.EventMeaning: leaves out generic commitments, for which the source fetches no events.
- DaTracking.UnresolvedForcesReorg: leaves out challenges that finalization pruned, whose keys are forgotten.
- SubmissionLaws.EveryBlockAccountedFor: takes outputs to end exactly when they are closed, which is how the channel output behaves.
- DisputeClaims.ClaimMonitor.CheckGameClaims: takes claims to be listed by contract index with parents first, which the source indexes by, durations without 64-bit overflow, and a parent claim never to be the all-zero record.
- ConductorFsm.EveryRunFindsFirstGreatest: takes SSZ as an abstract codec with a round trip.
- StepWitnessLaws.WitnessSuffices: says nothing of a preimage read at offset 2^32 - 1, whose witness carries no preimage: `CarriesPreimageIff`.
- DisputeTree.CreateTree: requires every claim but the root to come after its parent, as the source asks of its callers.
- ConductorRuns.EveryStartIsOnHead: is about the head at the moment consensus answers; entries applied between that answer and the command are not interleaved.
- Closing the channel manager: its clean-up loop removes from the slice it ranges over.
- The channel output, batch conversion and compressors are answers of the environment.
- Monotonicity of the finalized head of the alt-DA manager: two sources set it; only the last pruned block is claimed to be ordered.
- JSON, ELF loading, metrics, logging, RPC, command lines and configuration checks.
- Loading pages from JSON and the source maps of the VM would only add easy members.
- Parent hash and time of L1 block references, the oldest and latest L2 references of a channel, and byte counters, which nothing depends on.
- Health-check arithmetic, cross-domain messaging, genesis and deploy configuration.
