/** The alt-DA state object: queues of commitments and challenges, and an index that shares the challenges with
    the queues (op-plasma/dastate.go). */
module DaState {
  import opened Words
  import opened Commitments
  import opened DaLedger

  class Challenge {
    const commData: CommitmentData
    const commInclusionBlockNumber: uint64
    const resolveWindowEnd: uint64
    var input: seq<byte>
    var challengeStatus: Status

    constructor (comm: CommitmentData, commBlock: uint64, windowEnd: uint64)
      ensures Contents() == Record(comm, commBlock, windowEnd, [], Active)
    {
      commData, commInclusionBlockNumber, resolveWindowEnd := comm, commBlock, windowEnd;
      input, challengeStatus := [], Active;
    }

    ghost function Contents(): Record
      reads this
    {
      Record(commData, commInclusionBlockNumber, resolveWindowEnd, input, challengeStatus)
    }

    function Key(): string {
      ChallengeKey(commData, commInclusionBlockNumber)
    }
  }

  lemma IndexInRange(l: Ledger)
    requires l.Shape()
    ensures l.pruned <= l.expired <= |l.challenges| && l.prunedCommitments <= l.expiredCommitments <= |l.commitments|
    ensures forall k :: k in l.index ==> l.pruned <= l.index[k] < |l.challenges|
  {
  }

  lemma SetKeepsShape(l: Ledger, i: nat, r: Record)
    requires l.Shape() && i < |l.challenges| && r.commData == l.challenges[i].commData && r.commBlock == l.challenges[i].commBlock
    ensures l.(challenges := l.challenges[i := r]).Shape()
  {
    hide ChallengeKey;
  }

  class State {
    const cfg: Config
    var commitments: seq<Commitment>
    var expiredCommitments: seq<Commitment>
    var challenges: seq<Challenge>
    var expiredChallenges: seq<Challenge>
    var challengesMap: map<string, Challenge>
    var lastPrunedCommitment: BlockRef

    // the logs that the queues are parts of
    ghost var ledger: Ledger
    ghost var created: seq<Challenge>

    ghost predicate Valid()
      reads this, created
      ensures Valid() ==>
                ledger.Shape() && ledger.expiredCommitments <= |ledger.commitments| && commitments == ledger.commitments[ledger.expiredCommitments..]
    {
      && ledger.Shape()
      && Records()
      && challenges == created[ledger.expired..]
      && expiredChallenges == created[ledger.pruned..ledger.expired]
      && challengesMap.Keys == ledger.index.Keys
      && (forall k :: k in challengesMap ==> challengesMap[k] == created[ledger.index[k]])
      && commitments == ledger.commitments[ledger.expiredCommitments..]
      && expiredCommitments == ledger.commitments[ledger.prunedCommitments..ledger.expiredCommitments]
      && lastPrunedCommitment == ledger.lastPruned
    }

    /** Every challenge object is different and holds the contents of its entry in the log. */
    ghost predicate Records()
      reads this, created
    {
      && |created| == |ledger.challenges|
      && (forall i, j :: 0 <= i < j < |created| ==> created[i] != created[j])
      && (forall i :: 0 <= i < |created| ==> created[i].Contents() == ledger.challenges[i])
    }

    constructor (config: Config)
      ensures Valid() && ledger == EMPTY && cfg == config && created == []
    {
      cfg := config;
      commitments, expiredCommitments, challenges, expiredChallenges := [], [], [], [];
      challengesMap := map[];
      lastPrunedCommitment := GENESIS;
      ledger, created := EMPTY, [];
    }

    method ClearCommitments()
      requires Valid()
      modifies this
      ensures Valid() && created == old(created) && ledger == DaLedger.ClearCommitments(old(ledger))
    {
      hide ChallengeKey;
      commitments := commitments[..0];
      expiredCommitments := expiredCommitments[..0];
      ledger := DaLedger.ClearCommitments(ledger);
    }

    method Reset()
      requires Valid()
      modifies this
      ensures Valid() && created == [] && ledger == Clear(old(ledger))
    {
      commitments := commitments[..0];
      expiredCommitments := expiredCommitments[..0];
      challenges := challenges[..0];
      expiredChallenges := expiredChallenges[..0];
      challengesMap := map[];
      ledger, created := Clear(ledger), [];
    }

    method CreateChallenge(comm: CommitmentData, inclusionBlock: BlockRef, commBlock: uint64)
      requires Valid()
      modifies this
      ensures Valid() && ledger == Create(cfg, old(ledger), comm, inclusionBlock.number, commBlock)
      ensures |created| == |old(created)| + 1 && created[..|old(created)|] == old(created) && fresh(created[|old(created)|])
    {
      hide ChallengeKey, Add64, Ledger.Shape;
      IndexInRange(ledger);
      var c := new Challenge(comm, commBlock, Add64(inclusionBlock.number, cfg.resolveWindow));
      ghost var all := created + [c];
      challenges := challenges + [c];
      assert challenges == all[ledger.expired..] && expiredChallenges == all[ledger.pruned..ledger.expired];
      challengesMap := challengesMap[c.Key() := c];
      ledger := Create(cfg, ledger, comm, inclusionBlock.number, commBlock);
      created := all;
    }

    /** Changes one challenge, wherever it is queued. */
    method SetChallenge(c: Challenge, input: seq<byte>, status: Status, ghost i: nat)
      requires Valid() && i < |created| && created[i] == c && |created| == |ledger.challenges|
      modifies c, this`ledger
      ensures Valid()
      ensures ledger == old(ledger).(challenges := old(ledger.challenges)[i := old(ledger.challenges[i]).(input := input, status := status)])
    {
      hide ChallengeKey, Record.Key, Ledger.Shape;
      ghost var r := ledger.challenges[i].(input := input, status := status);
      SetKeepsShape(ledger, i, r);
      assert forall j :: 0 <= j < |created| && j != i ==> created[j] != c;
      c.input := input;
      c.challengeStatus := status;
      ledger := ledger.(challenges := ledger.challenges[i := r]);
      assert Records();
    }

    method ResolveChallenge(comm: CommitmentData, commBlock: uint64, input: seq<byte>) returns (ok: bool)
      requires Valid()
      modifies this, created
      ensures Valid() && created == old(created)
      ensures ok == (ChallengeKey(comm, commBlock) in old(ledger).index)
      ensures ledger == Resolve(old(ledger), comm, commBlock, input)
    {
      hide ChallengeKey, Record.Key, Ledger.Shape;
      var key := ChallengeKey(comm, commBlock);
      if key !in challengesMap {
        return false;
      }
      var c := challengesMap[key];
      IndexInRange(ledger);
      SetChallenge(c, input, Resolved, ledger.index[key]);
      return true;
    }

    method TrackCommitment(comm: CommitmentData, inclusionBlock: BlockRef)
      requires Valid()
      modifies this
      ensures Valid() && created == old(created) && ledger == Track(cfg, old(ledger), comm, inclusionBlock)
    {
      hide ChallengeKey;
      var c := Commitment(comm, inclusionBlock, Add64(inclusionBlock.number, cfg.challengeWindow));
      commitments := commitments + [c];
      ledger := Track(cfg, ledger, comm, inclusionBlock);
    }

    method GetChallenge(comm: CommitmentData, commBlock: uint64) returns (c: Option<Challenge>)
      requires Valid()
      ensures c.Some? <==> ledger.Lookup(ChallengeKey(comm, commBlock)).Some?
      ensures c.Some? ==> c.value in created && Some(c.value.Contents()) == ledger.Lookup(ChallengeKey(comm, commBlock))
    {
      hide ChallengeKey;
      var key := ChallengeKey(comm, commBlock);
      if key in challengesMap {
        c := Some(challengesMap[key]);
      } else {
        c := None;
      }
    }

    method GetChallengeStatus(comm: CommitmentData, commBlock: uint64) returns (status: Status)
      requires Valid()
      ensures status == ledger.StatusOf(comm, commBlock)
    {
      var c := GetChallenge(comm, commBlock);
      if c.Some? {
        return c.value.challengeStatus;
      }
      return Uninitialized;
    }

    method NoCommitments() returns (none: bool)
      requires Valid()
      ensures none <==> ledger.pruned == |ledger.challenges| && ledger.prunedCommitments == |ledger.commitments|
    {
      hide ChallengeKey;
      none := |challenges| == 0 && |expiredChallenges| == 0 && |commitments| == 0 && |expiredCommitments| == 0;
    }

    method ExpiresAt(c: Commitment) returns (at: uint64, unresolved: bool)
      requires Valid()
      ensures at == ledger.ExpiresAt(c) && unresolved == ledger.Unresolved(c)
    {
      hide ChallengeKey;
      var challenge := GetChallenge(c.data, c.inclusionBlock.number);
      at, unresolved := c.challengeWindowEnd, false;
      if challenge.Some? {
        at := challenge.value.resolveWindowEnd;
        unresolved := challenge.value.challengeStatus != Resolved;
      }
    }

    /** Moves the head of the active commitments to the expired ones. */
    method MoveCommitment()
      requires Valid() && |commitments| > 0
      modifies this
      ensures Valid() && created == old(created)
      ensures ledger == old(ledger).(expiredCommitments := old(ledger).expiredCommitments + 1)
    {
      hide ChallengeKey;
      expiredCommitments := expiredCommitments + [commitments[0]];
      commitments := commitments[1..];
      ledger := ledger.(expiredCommitments := ledger.expiredCommitments + 1);
    }

    method ExpireCommitments(origin: BlockRef) returns (reorg: bool)
      requires Valid()
      modifies this
      ensures Valid() && created == old(created)
      ensures ledger == DaLedger.ExpireCommitments(old(ledger), origin.number)
      ensures reorg == ReorgRequired(ledger, old(ledger).expiredCommitments, ledger.expiredCommitments)
    {
      hide Valid, Ledger.Shape, ReorgRequired, DaLedger.ExpireCommitments, Ledger.ExpiresAt, Ledger.Unresolved;
      reorg := false;
      ghost var l := ledger;
      NothingExpired(l, origin.number);
      while |commitments| > 0
        invariant Valid() && created == old(created)
        invariant l.expiredCommitments <= ledger.expiredCommitments <= |l.commitments|
        invariant ledger == l.(expiredCommitments := ledger.expiredCommitments)
        invariant DaLedger.ExpireCommitments(ledger, origin.number) == DaLedger.ExpireCommitments(l, origin.number)
        invariant reorg == ReorgRequired(ledger, l.expiredCommitments, ledger.expiredCommitments)
        decreases |commitments|
      {
        var c := commitments[0];
        var expiresAt, unresolved := ExpiresAt(c);
        if expiresAt > origin.number {
          NextStays(ledger, origin.number);
          return;
        }
        ghost var before := ledger;
        MoveCommitment();
        OneMoreExpired(l, before, origin.number);
        if unresolved {
          reorg := true;
        }
      }
      NextStays(ledger, origin.number);
    }

    /** Moves the head of the active challenges to the expired ones. */
    method MoveChallenge()
      requires Valid() && |challenges| > 0
      modifies this, created
      ensures Valid() && created == old(created) && ledger == ExpireOne(old(ledger))
    {
      hide ChallengeKey, Record.Key, Ledger.Shape;
      IndexInRange(ledger);
      var c := challenges[0];
      ghost var e := ledger.expired;
      assert c == created[e] && c.Contents() == ledger.challenges[e];
      expiredChallenges := expiredChallenges + [c];
      challenges := challenges[1..];
      assert challenges == created[e + 1..] && expiredChallenges == created[ledger.pruned..e + 1];
      if c.challengeStatus == Active {
        c.challengeStatus := Expired;
      }
      ledger := ExpireOne(ledger);
    }

    method ExpireChallenges(origin: BlockRef)
      requires Valid()
      modifies this, created
      ensures Valid() && created == old(created) && ledger == DaLedger.ExpireChallenges(old(ledger), origin.number)
    {
      hide ChallengeKey;
      while |challenges| > 0
        invariant Valid() && created == old(created)
        invariant DaLedger.ExpireChallenges(ledger, origin.number) == DaLedger.ExpireChallenges(old(ledger), origin.number)
        decreases |challenges|
      {
        var c := challenges[0];
        assert c == created[ledger.expired];
        if c.resolveWindowEnd > origin.number {
          return;
        }
        MoveChallenge();
      }
    }

    method Prune(origin: BlockRef)
      requires Valid()
      modifies this
      ensures Valid() && created == old(created) && ledger == DaLedger.Prune(old(ledger), origin.number)
    {
      hide Valid, DaLedger.PruneCommitments, DaLedger.PruneChallenges, Ledger.Shape;
      PruneCommitments(origin);
      PruneChallenges(origin);
    }

    method PruneCommitments(origin: BlockRef)
      requires Valid()
      modifies this
      ensures Valid() && created == old(created) && ledger == DaLedger.PruneCommitments(old(ledger), origin.number)
    {
      hide ChallengeKey, Records;
      ghost var l := ledger;
      ghost var cs := l.commitments[..l.expiredCommitments];
      while |expiredCommitments| > 0
        invariant Valid() && created == old(created)
        invariant l.prunedCommitments <= ledger.prunedCommitments <= |cs| && |expiredCommitments| == |cs| - ledger.prunedCommitments
        invariant ledger == PrunedTo(l, ledger.prunedCommitments)
        invariant ExpiredPrefix(l, cs, ledger.prunedCommitments, origin.number) == ExpiredPrefix(l, cs, l.prunedCommitments, origin.number)
        decreases |expiredCommitments|
      {
        var c := expiredCommitments[0];
        assert c == cs[ledger.prunedCommitments];
        var expiresAt, _ := ExpiresAt(c);
        if expiresAt > origin.number {
          break;
        }
        DropCommitment();
      }
    }

    /** Removes the head of the expired commitments and remembers its block. */
    method DropCommitment()
      requires Valid() && |expiredCommitments| > 0
      modifies this
      ensures Valid() && created == old(created)
      ensures ledger == old(ledger).(prunedCommitments := old(ledger).prunedCommitments + 1,
                                     lastPruned := old(ledger).commitments[old(ledger).prunedCommitments].inclusionBlock)
    {
      hide ChallengeKey;
      var c := expiredCommitments[0];
      expiredCommitments := expiredCommitments[1..];
      lastPrunedCommitment := c.inclusionBlock;
      ledger := ledger.(prunedCommitments := ledger.prunedCommitments + 1, lastPruned := c.inclusionBlock);
    }

    method PruneChallenges(origin: BlockRef)
      requires Valid()
      modifies this
      ensures Valid() && created == old(created) && ledger == DaLedger.PruneChallenges(old(ledger), origin.number)
    {
      hide ChallengeKey;
      while |expiredChallenges| > 0
        invariant Valid() && created == old(created)
        invariant DaLedger.PruneChallenges(ledger, origin.number) == DaLedger.PruneChallenges(old(ledger), origin.number)
        decreases |expiredChallenges|
      {
        var c := expiredChallenges[0];
        assert c == created[ledger.pruned];
        if c.resolveWindowEnd > origin.number {
          break;
        }
        DropChallenge();
      }
    }

    method DropChallenge()
      requires Valid() && |expiredChallenges| > 0
      modifies this
      ensures Valid() && created == old(created) && ledger == PruneOne(old(ledger))
    {
      hide ChallengeKey;
      var c := expiredChallenges[0];
      assert c == created[ledger.pruned] && c.Contents() == ledger.challenges[ledger.pruned];
      expiredChallenges := expiredChallenges[1..];
      challengesMap := challengesMap - {c.Key()};
      ledger := PruneOne(ledger);
    }
  }

  /** One more commitment has expired. */
  lemma OneMoreExpired(l: Ledger, before: Ledger, origin: uint64)
    requires l.Shape() && before == l.(expiredCommitments := before.expiredCommitments) && before.Shape()
    requires l.expiredCommitments <= before.expiredCommitments < |l.commitments|
    requires before.ExpiresAt(before.commitments[before.expiredCommitments]) <= origin
    ensures var after := before.(expiredCommitments := before.expiredCommitments + 1);
            && after.Shape()
            && DaLedger.ExpireCommitments(after, origin) == DaLedger.ExpireCommitments(before, origin)
            && (ReorgRequired(after, l.expiredCommitments, after.expiredCommitments) <==>
                ReorgRequired(before, l.expiredCommitments, before.expiredCommitments) ||
                before.Unresolved(before.commitments[before.expiredCommitments]))
  {
    hide ChallengeKey;
  }

  lemma NothingExpired(l: Ledger, origin: uint64)
    requires l.Shape()
    ensures !ReorgRequired(l, l.expiredCommitments, l.expiredCommitments)
  {
  }

  lemma NextStays(l: Ledger, origin: uint64)
    requires l.Shape()
    requires l.expiredCommitments < |l.commitments| ==> l.ExpiresAt(l.commitments[l.expiredCommitments]) > origin
    ensures DaLedger.ExpireCommitments(l, origin) == l
  {
    hide ChallengeKey;
  }
}
