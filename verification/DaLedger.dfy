/** The alt-DA state as two logs with cursors: every challenge and every commitment since the last reset, cut into
    a pruned, an expired and an active part (op-plasma/dastate.go). */
module DaLedger {
  import opened Words
  import opened Merkle
  import opened Commitments

  function Add64(x: uint64, y: uint64): uint64 {
    (x + y) % 0x1_0000_0000_0000_0000
  }

  datatype Config = Config(commitmentType: CommitmentType, challengeWindow: uint64, resolveWindow: uint64)

  datatype BlockRef = BlockRef(hash: Bytes32, number: uint64)

  const GENESIS := BlockRef(ZERO32, 0)

  datatype Status = Uninitialized | Active | Resolved | Expired

  datatype Commitment = Commitment(data: CommitmentData, inclusionBlock: BlockRef, challengeWindowEnd: uint64)

  /** The contents of a challenge. */
  datatype Record = Record(
    commData: CommitmentData,
    commBlock: uint64,
    resolveWindowEnd: uint64,
    input: seq<byte>,
    status: Status)
  {
    function Key(): string {
      ChallengeKey(commData, commBlock)
    }
  }

  datatype Ledger = Ledger(
    challenges: seq<Record>,
    pruned: nat,
    expired: nat,
    index: map<string, nat>,
    commitments: seq<Commitment>,
    prunedCommitments: nat,
    expiredCommitments: nat,
    lastPruned: BlockRef)
  {
    predicate Shape() {
      && pruned <= expired <= |challenges|
      && prunedCommitments <= expiredCommitments <= |commitments|
      && forall k :: k in index ==> pruned <= index[k] < |challenges| && challenges[index[k]].Key() == k
    }

    function Lookup(key: string): Option<Record>
      requires Shape()
    {
      if key in index then Some(challenges[index[key]]) else None
    }

    function StatusOf(comm: CommitmentData, block: uint64): Status
      requires Shape()
    {
      match Lookup(ChallengeKey(comm, block))
      case None => Uninitialized
      case Some(r) => r.status
    }

    /** The end of the resolve window if the commitment was challenged, of the challenge window if not. */
    function ExpiresAt(c: Commitment): uint64
      requires Shape()
    {
      match Lookup(ChallengeKey(c.data, c.inclusionBlock.number))
      case None => c.challengeWindowEnd
      case Some(r) => r.resolveWindowEnd
    }

    /** The commitment was challenged and the challenge was not resolved. */
    predicate Unresolved(c: Commitment)
      requires Shape()
    {
      match Lookup(ChallengeKey(c.data, c.inclusionBlock.number))
      case None => false
      case Some(r) => r.status != Resolved
    }
  }

  const EMPTY := Ledger([], 0, 0, map[], [], 0, 0, GENESIS)

  // ----- operations -----

  function Create(cfg: Config, l: Ledger, comm: CommitmentData, block: uint64, commBlock: uint64): (l': Ledger)
    requires l.Shape()
    ensures l'.Shape()
  {
    var r := Record(comm, commBlock, Add64(block, cfg.resolveWindow), [], Active);
    l.(challenges := l.challenges + [r], index := l.index[r.Key() := |l.challenges|])
  }

  function Resolve(l: Ledger, comm: CommitmentData, commBlock: uint64, input: seq<byte>): (l': Ledger)
    requires l.Shape()
    ensures l'.Shape()
  {
    var k := ChallengeKey(comm, commBlock);
    if k !in l.index then l
    else l.(challenges := l.challenges[l.index[k] := l.challenges[l.index[k]].(input := input, status := Resolved)])
  }

  function Track(cfg: Config, l: Ledger, comm: CommitmentData, block: BlockRef): (l': Ledger)
    requires l.Shape()
    ensures l'.Shape()
  {
    l.(commitments := l.commitments + [Commitment(comm, block, Add64(block.number, cfg.challengeWindow))])
  }

  /** A challenge leaves the active part; it is lost if it was still unresolved. */
  function ExpireOne(l: Ledger): (l': Ledger)
    requires l.Shape() && l.expired < |l.challenges|
    ensures l'.Shape()
  {
    var r := l.challenges[l.expired];
    l.(challenges := l.challenges[l.expired := if r.status == Active then r.(status := Expired) else r],
       expired := l.expired + 1)
  }

  function ExpireChallenges(l: Ledger, origin: uint64): (l': Ledger)
    requires l.Shape()
    ensures l'.Shape()
    decreases |l.challenges| - l.expired
  {
    if l.expired < |l.challenges| && l.challenges[l.expired].resolveWindowEnd <= origin
    then ExpireChallenges(ExpireOne(l), origin)
    else l
  }

  /** The length of the longest prefix of `cs[i..]` whose commitments all expire by `origin`, counted from 0. */
  function ExpiredPrefix(l: Ledger, cs: seq<Commitment>, i: nat, origin: uint64): (j: nat)
    requires l.Shape() && i <= |cs|
    ensures i <= j <= |cs|
    ensures forall k :: i <= k < j ==> l.ExpiresAt(cs[k]) <= origin
    ensures j < |cs| ==> l.ExpiresAt(cs[j]) > origin
    decreases |cs| - i
  {
    if i < |cs| && l.ExpiresAt(cs[i]) <= origin then ExpiredPrefix(l, cs, i + 1, origin) else i
  }

  /** Commitments expire in order; a reorganisation is required if one of them was challenged and not resolved. */
  function ExpireCommitments(l: Ledger, origin: uint64): (l': Ledger)
    requires l.Shape()
    ensures l'.Shape()
  {
    l.(expiredCommitments := ExpiredPrefix(l, l.commitments, l.expiredCommitments, origin))
  }

  predicate ReorgRequired(l: Ledger, from: nat, to: nat)
    requires l.Shape() && from <= to <= |l.commitments|
  {
    exists i :: from <= i < to && l.Unresolved(l.commitments[i])
  }

  function PrunedTo(l: Ledger, j: nat): Ledger
    requires l.prunedCommitments <= j <= |l.commitments|
  {
    l.(prunedCommitments := j, lastPruned := if j > l.prunedCommitments then l.commitments[j - 1].inclusionBlock else l.lastPruned)
  }

  function PruneCommitments(l: Ledger, origin: uint64): (l': Ledger)
    requires l.Shape()
    ensures l'.Shape()
  {
    PrunedTo(l, ExpiredPrefix(l, l.commitments[..l.expiredCommitments], l.prunedCommitments, origin))
  }

  lemma DropsOwnKey(l: Ledger)
    requires l.Shape() && l.pruned < l.expired
    ensures forall k :: k in l.index && k != l.challenges[l.pruned].Key() ==> l.pruned + 1 <= l.index[k]
  {
    hide Record.Key;
  }

  /** The oldest expired challenge is dropped, and its key with it, whoever owns the key now. */
  function PruneOne(l: Ledger): (l': Ledger)
    requires l.Shape() && l.pruned < l.expired
    ensures l'.Shape()
  {
    DropsOwnKey(l);
    l.(pruned := l.pruned + 1, index := l.index - {l.challenges[l.pruned].Key()})
  }

  function PruneChallenges(l: Ledger, origin: uint64): (l': Ledger)
    requires l.Shape()
    ensures l'.Shape()
    decreases l.expired - l.pruned
  {
    if l.pruned < l.expired && l.challenges[l.pruned].resolveWindowEnd <= origin
    then PruneChallenges(PruneOne(l), origin)
    else l
  }

  function Prune(l: Ledger, origin: uint64): (l': Ledger)
    requires l.Shape()
    ensures l'.Shape()
  {
    PruneChallenges(PruneCommitments(l, origin), origin)
  }

  function ClearCommitments(l: Ledger): (l': Ledger)
    requires l.Shape()
    ensures l'.Shape()
  {
    l.(commitments := [], prunedCommitments := 0, expiredCommitments := 0)
  }

  /** Everything but the last pruned reference is forgotten. */
  function Clear(l: Ledger): (l': Ledger)
    ensures l'.Shape()
  {
    EMPTY.(lastPruned := l.lastPruned)
  }

  // ----- the challenge invariant -----

  /** Challenges were created in order, at blocks up to `top`, and none in the expired part is still active. */
  ghost predicate Sorted(cfg: Config, l: Ledger, top: nat)
    ensures Sorted(cfg, l, top) ==> l.Shape()
  {
    && l.Shape()
    && (forall i, j :: 0 <= i < j < |l.challenges| ==> l.challenges[i].resolveWindowEnd <= l.challenges[j].resolveWindowEnd)
    && (forall i :: 0 <= i < |l.challenges| ==> l.challenges[i].resolveWindowEnd <= top + cfg.resolveWindow)
    && (forall i :: 0 <= i < l.expired ==> l.challenges[i].status in {Resolved, Expired})
    && (forall i :: l.expired <= i < |l.challenges| ==> l.challenges[i].status in {Active, Resolved})
  }

  /** The expired part is exactly what ends by block `origin`. */
  ghost predicate ExpiredUpTo(l: Ledger, origin: nat) {
    && l.expired <= |l.challenges|
    && (forall i :: 0 <= i < l.expired ==> l.challenges[i].resolveWindowEnd <= origin)
    && (forall i :: l.expired <= i < |l.challenges| ==> l.challenges[i].resolveWindowEnd > origin)
  }

  /** No Keccak commitment has this key, at any block. */
  ghost predicate NoKeccakKey(key: string) {
    forall c: CommitmentData, n: nat :: c.Keccak? ==> ChallengeKey(c, n) != key
  }

  /** The commitment is a Keccak one, or is at least not confused with one by its key. */
  ghost predicate Distinguished(comm: CommitmentData, block: uint64) {
    comm.Keccak? || NoKeccakKey(ChallengeKey(comm, block))
  }

  /** No challenge can be taken for one against another commitment that hashes decide about, and what a resolved one
      stores satisfies its commitment. */
  ghost predicate Verified(K: Hasher, l: Ledger) {
    forall i :: 0 <= i < |l.challenges| ==>
                  Distinguished(l.challenges[i].commData, l.challenges[i].commBlock) &&
                  (l.challenges[i].status == Resolved ==> l.challenges[i].commData.Verify(K, l.challenges[i].input))
  }

  lemma CreateKeepsSorted(cfg: Config, l: Ledger, comm: CommitmentData, origin: nat, block: uint64, commBlock: uint64)
    requires Sorted(cfg, l, block) && ExpiredUpTo(l, origin)
    requires origin < block && block + cfg.resolveWindow < 0x1_0000_0000_0000_0000
    ensures var l' := Create(cfg, l, comm, block, commBlock); Sorted(cfg, l', block) && ExpiredUpTo(l', origin)
  {
    hide ChallengeKey;
  }

  lemma ResolveKeepsSorted(cfg: Config, l: Ledger, comm: CommitmentData, origin: nat, top: nat, commBlock: uint64, input: seq<byte>)
    requires Sorted(cfg, l, top) && ExpiredUpTo(l, origin)
    ensures var l' := Resolve(l, comm, commBlock, input); Sorted(cfg, l', top) && ExpiredUpTo(l', origin)
  {
    hide ChallengeKey;
  }

  /** The challenge a resolution reaches by its key is the one against the resolved commitment. */
  lemma ResolveKeepsVerified(K: Hasher, l: Ledger, comm: CommitmentData, commBlock: uint64, input: seq<byte>)
    requires l.Shape() && Verified(K, l) && Distinguished(comm, commBlock) && comm.Verify(K, input)
    ensures Verified(K, Resolve(l, comm, commBlock, input))
  {
    hide ChallengeKey;
    var k := ChallengeKey(comm, commBlock);
    if k in l.index {
      var r := l.challenges[l.index[k]];
      SameKeyVerifies(comm, commBlock, r.commData, r.commBlock, K, input);
    }
  }

  /** Under one key, what satisfies one of two such commitments satisfies the other. */
  lemma SameKeyVerifies(c: CommitmentData, m: uint64, d: CommitmentData, n: uint64, K: Hasher, input: seq<byte>)
    requires Distinguished(c, m) && Distinguished(d, n) && ChallengeKey(c, m) == ChallengeKey(d, n) && c.Verify(K, input)
    ensures d.Verify(K, input) && (c.Keccak? <==> d.Keccak?) && (c.Keccak? ==> c == d)
  {
    hide ChallengeKey;
    if c.Keccak? && d.Keccak? {
      KeccakKeyInjective(c, m, d, n);
    }
  }

  lemma {:induction false} ExpireKeepsVerified(K: Hasher, l: Ledger, origin: uint64)
    requires l.Shape() && Verified(K, l)
    ensures Verified(K, ExpireChallenges(l, origin))
    decreases |l.challenges| - l.expired
  {
    if l.expired < |l.challenges| && l.challenges[l.expired].resolveWindowEnd <= origin {
      ExpireKeepsVerified(K, ExpireOne(l), origin);
    }
  }

  /** Expiring a prefix is enough, because the windows end in order. */
  lemma {:induction false} ExpireReachesOrigin(cfg: Config, l: Ledger, origin: uint64)
    requires Sorted(cfg, l, origin)
    requires forall i :: 0 <= i < l.expired ==> l.challenges[i].resolveWindowEnd <= origin
    ensures var l' := ExpireChallenges(l, origin); Sorted(cfg, l', origin) && ExpiredUpTo(l', origin)
    decreases |l.challenges| - l.expired
  {
    hide ChallengeKey;
    if l.expired < |l.challenges| && l.challenges[l.expired].resolveWindowEnd <= origin {
      ExpireReachesOrigin(cfg, ExpireOne(l), origin);
    }
  }

  /** Expiring pops challenges until one has an open window. */
  lemma {:induction false} ExpireStops(l: Ledger, origin: uint64)
    requires l.Shape()
    ensures var l' := ExpireChallenges(l, origin);
            && l.expired <= l'.expired <= |l'.challenges| == |l.challenges|
            && (forall i :: 0 <= i < |l.challenges| ==> l'.challenges[i].resolveWindowEnd == l.challenges[i].resolveWindowEnd)
            && (forall i :: l.expired <= i < l'.expired ==> l.challenges[i].resolveWindowEnd <= origin)
            && (l'.expired < |l.challenges| ==> l.challenges[l'.expired].resolveWindowEnd > origin)
    decreases |l.challenges| - l.expired
  {
    hide ChallengeKey;
    if l.expired < |l.challenges| && l.challenges[l.expired].resolveWindowEnd <= origin {
      ExpireStops(ExpireOne(l), origin);
    }
  }

  /** With a challenge created at a block, the stored ends, on 64 bits, stay in order as far as expiry at that block can
      tell, exactly if the new end does not wrap around or no earlier window is open. That says nothing of the end that
      was meant: see below. */
  lemma StoredEndsInOrderIff(cfg: Config, l: Ledger, comm: CommitmentData, origin: nat, block: uint64, commBlock: uint64)
    requires Sorted(cfg, l, origin) && ExpiredUpTo(l, origin) && origin < block
    ensures var l' := ExpireChallenges(Create(cfg, l, comm, block, commBlock), block);
            ExpiredUpTo(l', block) <==>
            || block + cfg.resolveWindow < 0x1_0000_0000_0000_0000
            || forall i :: 0 <= i < |l.challenges| ==> l.challenges[i].resolveWindowEnd <= block
  {
    hide ChallengeKey;
    var l1 := Create(cfg, l, comm, block, commBlock);
    var n := |l.challenges|;
    ExpireStops(l1, block);
    assert forall i :: 0 <= i < n ==> l1.challenges[i] == l.challenges[i];
    assert l1.challenges[n].resolveWindowEnd == Add64(block, cfg.resolveWindow);
    var l' := ExpireChallenges(l1, block);
    if block + cfg.resolveWindow < 0x1_0000_0000_0000_0000 {
      CreateKeepsSorted(cfg, l, comm, origin, block, commBlock);
      ExpireReachesOrigin(cfg, l1, block);
    } else if i :| 0 <= i < n && l.challenges[i].resolveWindowEnd > block {
      assert l'.expired <= i;
      assert l'.challenges[n].resolveWindowEnd <= block;
    }
  }

  // ----- when a challenge is dropped, and when it should be -----

  /** A challenge was created at `block`, and all challenges were then expired up to block `at`. */
  function CreatedThenExpired(cfg: Config, l: Ledger, comm: CommitmentData, block: uint64, commBlock: uint64, at: uint64): Ledger
    requires l.Shape()
  {
    ExpireChallenges(Create(cfg, l, comm, block, commBlock), at)
  }

  /** The challenge created behind all those of `l` has left the active part. */
  predicate Dropped(l: Ledger, l': Ledger) {
    |l.challenges| < l'.expired
  }

  /** Expiring up to earlier blocks on the way makes no difference. */
  lemma {:induction false} ExpireTwice(l: Ledger, a: uint64, b: uint64)
    requires l.Shape() && a <= b
    ensures ExpireChallenges(ExpireChallenges(l, a), b) == ExpireChallenges(l, b)
    decreases |l.challenges| - l.expired
  {
    hide ChallengeKey;
    if l.expired < |l.challenges| && l.challenges[l.expired].resolveWindowEnd <= a {
      ExpireTwice(ExpireOne(l), a, b);
    }
  }

  /** It is dropped at the first block by which its stored end and those of all challenges before it have passed. */
  lemma DroppedWhen(cfg: Config, l: Ledger, comm: CommitmentData, origin: nat, block: uint64, commBlock: uint64, at: uint64)
    requires l.Shape() && ExpiredUpTo(l, origin) && origin < block <= at
    ensures Dropped(l, CreatedThenExpired(cfg, l, comm, block, commBlock, at)) <==>
            && Add64(block, cfg.resolveWindow) <= at
            && forall i :: 0 <= i < |l.challenges| ==> l.challenges[i].resolveWindowEnd <= at
  {
    hide ChallengeKey;
    var l1 := Create(cfg, l, comm, block, commBlock);
    var n := |l.challenges|;
    ExpireStops(l1, at);
    assert forall i :: 0 <= i < n ==> l1.challenges[i] == l.challenges[i];
    assert l1.challenges[n].resolveWindowEnd == Add64(block, cfg.resolveWindow);
  }

  /** At block `at`, whether it is dropped is what its true window says, which ends at `block + cfg.resolveWindow` as an
      unbounded number, exactly if that does not overflow 64 bits or an earlier window is still open to hold it back. */
  lemma DroppedOnTimeIff(cfg: Config, l: Ledger, comm: CommitmentData, origin: nat, block: uint64, commBlock: uint64, at: uint64)
    requires Sorted(cfg, l, origin) && ExpiredUpTo(l, origin) && origin < block <= at
    ensures (Dropped(l, CreatedThenExpired(cfg, l, comm, block, commBlock, at)) <==> block + cfg.resolveWindow <= at) <==>
            || block + cfg.resolveWindow < 0x1_0000_0000_0000_0000
            || exists i :: 0 <= i < |l.challenges| && l.challenges[i].resolveWindowEnd > at
  {
    hide ChallengeKey, Dropped, CreatedThenExpired;
    DroppedWhen(cfg, l, comm, origin, block, commBlock, at);
  }

  /** At every later block. */
  ghost predicate WindowHonoured(cfg: Config, l: Ledger, comm: CommitmentData, block: uint64, commBlock: uint64)
    requires l.Shape()
  {
    forall at: uint64 :: block <= at ==>
      (Dropped(l, CreatedThenExpired(cfg, l, comm, block, commBlock, at)) <==> block + cfg.resolveWindow <= at)
  }

  /** A challenge is dropped at the end of its window, neither before nor after, exactly if that end fits in 64 bits. */
  lemma WindowHonouredIff(cfg: Config, l: Ledger, comm: CommitmentData, origin: nat, block: uint64, commBlock: uint64)
    requires Sorted(cfg, l, origin) && ExpiredUpTo(l, origin) && origin < block
    ensures WindowHonoured(cfg, l, comm, block, commBlock) <==> block + cfg.resolveWindow < 0x1_0000_0000_0000_0000
  {
    hide ChallengeKey, Dropped, CreatedThenExpired, Sorted;
    if block + cfg.resolveWindow < 0x1_0000_0000_0000_0000 {
      forall at: uint64 | block <= at
        ensures Dropped(l, CreatedThenExpired(cfg, l, comm, block, commBlock, at)) <==> block + cfg.resolveWindow <= at
      {
        DroppedOnTimeIff(cfg, l, comm, origin, block, commBlock, at);
      }
    } else {
      // by the last block every stored end has passed
      var last: uint64 := 0xFFFF_FFFF_FFFF_FFFF;
      DroppedOnTimeIff(cfg, l, comm, origin, block, commBlock, last);
      assert Dropped(l, CreatedThenExpired(cfg, l, comm, block, commBlock, last));
    }
  }

  /** Otherwise it can be lost in the very block that creates it, a block before its window ends. */
  lemma LostAtOnce(cfg: Config, comm: CommitmentData, commBlock: uint64)
    requires cfg.resolveWindow == 1
    ensures var block: uint64 := 0xFFFF_FFFF_FFFF_FFFF;
            var l := CreatedThenExpired(cfg, EMPTY, comm, block, commBlock, block);
            && Dropped(EMPTY, l) && |l.challenges| == 1 && l.challenges[0].status == Expired
            && block < block + cfg.resolveWindow
  {
    hide ChallengeKey;
    var block: uint64 := 0xFFFF_FFFF_FFFF_FFFF;
    var l1 := Create(cfg, EMPTY, comm, block, commBlock);
    assert l1.challenges[0].resolveWindowEnd == 0;
    assert ExpireChallenges(l1, block) == ExpireChallenges(ExpireOne(l1), block);
  }

  /** The challenges whose resolve window is open after block `origin`. */
  function OpenAfter(cs: seq<Record>, origin: nat): seq<Record> {
    if cs == [] then []
    else (if cs[0].resolveWindowEnd > origin then [cs[0]] else []) + OpenAfter(cs[1..], origin)
  }

  lemma {:induction false} OpenAfterPrefix(cs: seq<Record>, n: nat, origin: nat)
    requires n <= |cs|
    requires forall i :: 0 <= i < n ==> cs[i].resolveWindowEnd <= origin
    requires forall i :: n <= i < |cs| ==> cs[i].resolveWindowEnd > origin
    ensures OpenAfter(cs, origin) == cs[n..]
  {
    if cs != [] {
      if n > 0 {
        OpenAfterPrefix(cs[1..], n - 1, origin);
        assert cs[n..] == cs[1..][n - 1..];
      } else {
        OpenAfterPrefix(cs[1..], 0, origin);
        assert cs == [cs[0]] + cs[1..];
      }
    }
  }

  /** The active part is every unpruned challenge whose window is still open. */
  lemma ActivePartIsOpen(l: Ledger, origin: nat)
    requires l.Shape() && ExpiredUpTo(l, origin)
    ensures l.challenges[l.expired..] == OpenAfter(l.challenges[l.pruned..], origin)
  {
    hide ChallengeKey;
    var cs, n := l.challenges[l.pruned..], l.expired - l.pruned;
    assert forall i :: 0 <= i < |cs| ==> cs[i] == l.challenges[l.pruned + i];
    OpenAfterPrefix(cs, n, origin);
    assert cs[n..] == l.challenges[l.expired..];
  }

  lemma {:induction false} PruneChallengesKeeps(l: Ledger, origin: uint64)
    requires l.Shape()
    ensures var l' := PruneChallenges(l, origin);
            l' == l.(pruned := l'.pruned, index := l'.index) && l'.pruned >= l.pruned &&
            forall k :: k in l'.index ==> k in l.index && l'.index[k] == l.index[k]
    decreases l.expired - l.pruned
  {
    hide ChallengeKey;
    if l.pruned < l.expired && l.challenges[l.pruned].resolveWindowEnd <= origin {
      PruneChallengesKeeps(PruneOne(l), origin);
    }
  }
}
