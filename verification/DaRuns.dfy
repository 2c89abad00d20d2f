/** What holds in every run of the alt-DA manager. */
module DaRuns {
  import opened Words
  import opened Merkle
  import opened Commitments
  import opened DaLedger
  import opened DaSpec

  // ----- challenge windows -----

  predicate InRange(cfg: Config, block: BlockRef) {
    block.number + cfg.resolveWindow < 0x1_0000_0000_0000_0000
  }

  /** No block number is so high that adding the resolve window wraps around. */
  predicate CallInRange(cfg: Config, c: Call) {
    match c
    case CallAdvance(block, _, _) => InRange(cfg, block)
    case CallGetInput(_, _, _, next, _) => next.Some? ==> InRange(cfg, next.value)
    case CallReset(_) => true
    case CallFinalize(_) => true
  }

  predicate AllInRange(cfg: Config, cs: seq<Call>) {
    forall i :: 0 <= i < |cs| ==> CallInRange(cfg, cs[i])
  }

  /** Challenges are in order and expired exactly up to the challenge origin. */
  ghost predicate Timely(cfg: Config, d: Da)
    ensures Timely(cfg, d) ==> d.ledger.Shape()
  {
    Sorted(cfg, d.ledger, d.challengeOrigin.number) && ExpiredUpTo(d.ledger, d.challengeOrigin.number)
  }

  lemma {:induction false} EventsKeepSorted(K: Hasher, cfg: Config, l: Ledger, origin: nat, block: BlockRef, es: seq<Event>)
    requires Sorted(cfg, l, block.number) && ExpiredUpTo(l, origin) && origin < block.number && InRange(cfg, block)
    ensures var l' := ApplyEvents(K, cfg, l, block.number, es); Sorted(cfg, l', block.number) && ExpiredUpTo(l', origin)
    decreases |es|
  {
    hide Sorted, ExpiredUpTo, Create, Resolve;
    if es != [] {
      var e := es[0];
      if e.Event? && Decode(e.commitment).Some? {
        var comm := Decode(e.commitment).value;
        CreateKeepsSorted(cfg, l, comm, origin, block.number, e.block);
        ResolveKeepsSorted(cfg, l, comm, origin, block.number, e.block, []);
        if e.tx.Tx? && e.tx.input.Some? {
          ResolveKeepsSorted(cfg, l, comm, origin, block.number, e.block, e.tx.input.value);
        }
      }
      EventsKeepSorted(K, cfg, ApplyEvent(K, cfg, l, block.number, e), origin, block, es[1..]);
    }
  }

  /** After the challenge origin moves, exactly the challenges with an open window are active. */
  lemma AdvanceChallengeKeepsTimely(K: Hasher, cfg: Config, d: Da, block: BlockRef, logs: Option<seq<Event>>)
    requires Timely(cfg, d) && InRange(cfg, block)
    ensures var (d', r) := AdvanceChallengeOrigin(K, cfg, d, block, logs);
            Timely(cfg, d') && (r == Done ==> d'.challengeOrigin.number >= block.number)
  {
    hide ApplyEvents, ExpireChallenges;
    if block.number > d.challengeOrigin.number && Fetched(cfg, logs).Some? {
      var es := Fetched(cfg, logs).value;
      EventsKeepSorted(K, cfg, d.ledger, d.challengeOrigin.number, block, es);
      ExpireReachesOrigin(cfg, ApplyEvents(K, cfg, d.ledger, block.number, es), block.number);
    }
  }

  /** What concerns commitments leaves the challenges alone. */
  lemma SameChallenges(cfg: Config, d: Da, d': Da)
    requires Timely(cfg, d) && d'.ledger.Shape() && d'.challengeOrigin == d.challengeOrigin
    requires d'.ledger.challenges == d.ledger.challenges && d'.ledger.expired == d.ledger.expired
    ensures Timely(cfg, d')
  {
    hide ChallengeKey;
  }

  lemma AdvanceKeepsTimely(K: Hasher, cfg: Config, d: Da, block: BlockRef, logs: Option<seq<Event>>, ref: Option<BlockRef>)
    requires Timely(cfg, d) && InRange(cfg, block)
    ensures Timely(cfg, AdvanceL1Origin(K, cfg, d, block, logs, ref).0)
  {
    hide AdvanceChallengeOrigin, ExpiredPrefix, ReorgRequired, ChallengeKey, Timely, Ledger.Shape;
    AdvanceChallengeKeepsTimely(K, cfg, d, block, logs);
    var (d1, r1) := AdvanceChallengeOrigin(K, cfg, d, block, logs);
    if r1 == Done {
      SameChallenges(cfg, d1, AdvanceL1Origin(K, cfg, d, block, logs, ref).0);
    }
  }

  lemma GetInputKeepsTimely(
    K: Hasher, cfg: Config, d: Da, comm: CommitmentData, block: BlockRef, stored: Stored,
    next: Option<BlockRef>, logs: Option<seq<Event>>)
    requires Timely(cfg, d) && (next.Some? ==> InRange(cfg, next.value))
    ensures Timely(cfg, GetInput(K, cfg, d, comm, block, stored, next, logs).0)
  {
    hide AdvanceChallengeOrigin, ChallengeKey, Timely, Ledger.Shape;
    var d1 := d.(ledger := Track(cfg, d.ledger, comm, block));
    SameChallenges(cfg, d, d1);
    if next.Some? {
      AdvanceChallengeKeepsTimely(K, cfg, d1, next.value, logs);
    }
  }

  lemma FinalizeKeepsTimely(cfg: Config, d: Da, l1: BlockRef)
    requires Timely(cfg, d)
    ensures Timely(cfg, Finalize(d, l1))
  {
    hide ExpiredPrefix, PruneChallenges, Timely, Ledger.Shape;
    PruneChallengesKeeps(PruneCommitments(d.ledger, l1.number), l1.number);
    SameChallenges(cfg, d, Finalize(d, l1));
  }

  lemma ApplyKeepsTimely(K: Hasher, cfg: Config, d: Da, c: Call)
    requires Timely(cfg, d) && CallInRange(cfg, c)
    ensures Timely(cfg, Apply(K, cfg, d, c).0)
  {
    match c
    case CallAdvance(block, logs, ref) => AdvanceKeepsTimely(K, cfg, d, block, logs, ref);
    case CallGetInput(comm, block, stored, next, logs) => GetInputKeepsTimely(K, cfg, d, comm, block, stored, next, logs);
    case CallReset(base) =>
      if d.resetting {
        SameChallenges(cfg, d, Reset(d, base));
      }
    case CallFinalize(l1) => FinalizeKeepsTimely(cfg, d, l1);
  }

  lemma {:induction false} RunKeepsTimely(K: Hasher, cfg: Config, d: Da, cs: seq<Call>)
    requires Timely(cfg, d) && AllInRange(cfg, cs)
    ensures Timely(cfg, Run(K, cfg, d, cs))
    decreases |cs|
  {
    hide Apply, Timely;
    if cs != [] {
      ApplyKeepsTimely(K, cfg, d, cs[0]);
      RunKeepsTimely(K, cfg, Apply(K, cfg, d, cs[0]).0, cs[1..]);
    }
  }

  /** In every state a run reaches from a new manager, the active queue is what is left open of the challenges. */
  lemma ActiveQueueInEveryRun(K: Hasher, cfg: Config, cs: seq<Call>)
    requires AllInRange(cfg, cs)
    ensures var d := Run(K, cfg, NEW_DA, cs);
            var l := d.ledger;
            && Timely(cfg, d)
            && l.challenges[l.expired..] == OpenAfter(l.challenges[l.pruned..], d.challengeOrigin.number)
            && forall i :: 0 <= i < l.expired ==> l.challenges[i].status != Active
  {
    hide Run;
    RunKeepsTimely(K, cfg, NEW_DA, cs);
    ActivePartIsOpen(Run(K, cfg, NEW_DA, cs).ledger, Run(K, cfg, NEW_DA, cs).challengeOrigin.number);
  }

  // ----- reorganisations are never spurious -----

  /** The commitments that a call moves from the active to the expired part. */
  predicate Moved(before: Ledger, after: Ledger, i: int) {
    0 <= before.expiredCommitments <= i < after.expiredCommitments && i < |after.commitments|
  }

  function StatusOfCommitment(l: Ledger, c: Commitment): Status
    requires l.Shape()
  {
    l.StatusOf(c.data, c.inclusionBlock.number)
  }

  lemma ExpiredCommitmentDecided(cfg: Config, d: Da, c: Commitment, block: BlockRef)
    requires Timely(cfg, d) && d.ledger.ExpiresAt(c) <= block.number <= d.challengeOrigin.number
    ensures StatusOfCommitment(d.ledger, c) != Active
    ensures d.ledger.Unresolved(c) <==> StatusOfCommitment(d.ledger, c) == Expired
  {
    hide ChallengeKey;
  }

  lemma AdvanceChallengeKeepsCommitments(K: Hasher, cfg: Config, d: Da, block: BlockRef, logs: Option<seq<Event>>)
    requires d.ledger.Shape()
    ensures var d' := AdvanceChallengeOrigin(K, cfg, d, block, logs).0;
            && d'.ledger.commitments == d.ledger.commitments
            && d'.ledger.expiredCommitments == d.ledger.expiredCommitments
            && d'.ledger.prunedCommitments == d.ledger.prunedCommitments
            && d'.ledger.lastPruned == d.ledger.lastPruned && d'.ledger.pruned == d.ledger.pruned
            && d'.commitmentOrigin == d.commitmentOrigin && d'.resetting == d.resetting
    ensures AdvanceChallengeOrigin(K, cfg, d, block, logs).1 in {Done, FetchError}
  {
    hide ChallengeKey;
    if block.number > d.challengeOrigin.number && Fetched(cfg, logs).Some? {
      var es := Fetched(cfg, logs).value;
      EventsKeepCommitments(K, cfg, d.ledger, block.number, es);
      ExpireKeepsCommitments(ApplyEvents(K, cfg, d.ledger, block.number, es), block.number);
    }
  }

  lemma {:induction false} EventsKeepCommitments(K: Hasher, cfg: Config, l: Ledger, block: uint64, es: seq<Event>)
    requires l.Shape()
    ensures var l' := ApplyEvents(K, cfg, l, block, es);
            l' == l.(challenges := l'.challenges, index := l'.index)
    decreases |es|
  {
    hide ChallengeKey, Decode;
    if es != [] {
      EventsKeepCommitments(K, cfg, ApplyEvent(K, cfg, l, block, es[0]), block, es[1..]);
    }
  }

  lemma {:induction false} ExpireKeepsCommitments(l: Ledger, origin: uint64)
    requires l.Shape()
    ensures var l' := ExpireChallenges(l, origin);
            l' == l.(challenges := l'.challenges, expired := l'.expired)
    decreases |l.challenges| - l.expired
  {
    hide ChallengeKey;
    if l.expired < |l.challenges| && l.challenges[l.expired].resolveWindowEnd <= origin {
      ExpireKeepsCommitments(ExpireOne(l), origin);
    }
  }

  /** Advancing asks for a reorganisation exactly if a commitment that expires now has an expired challenge.
      A commitment whose challenge is still open never expires. */
  lemma ReorgExactlyForExpired(
    K: Hasher, cfg: Config, d: Da, block: BlockRef, logs: Option<seq<Event>>, ref: Option<BlockRef>)
    requires Timely(cfg, d) && InRange(cfg, block)
    ensures var (d', r) := AdvanceL1Origin(K, cfg, d, block, logs, ref);
            && (r == ReorgError <==>
                exists i :: Moved(d.ledger, d'.ledger, i) && StatusOfCommitment(d'.ledger, d'.ledger.commitments[i]) == Expired)
            && (forall i :: Moved(d.ledger, d'.ledger, i) ==> StatusOfCommitment(d'.ledger, d'.ledger.commitments[i]) != Active)
            && (r == ReorgError ==> d'.resetting)
  {
    hide AdvanceChallengeOrigin, ChallengeKey, Timely, Ledger.StatusOf;
    var (d1, r1) := AdvanceChallengeOrigin(K, cfg, d, block, logs);
    AdvanceChallengeKeepsTimely(K, cfg, d, block, logs);
    AdvanceChallengeKeepsCommitments(K, cfg, d, block, logs);
    if r1 == Done && block.number > d1.commitmentOrigin.number {
      CommitmentsDecided(cfg, d1, block);
    }
  }

  lemma CommitmentsDecided(cfg: Config, d: Da, block: BlockRef)
    requires Timely(cfg, d) && block.number <= d.challengeOrigin.number
    ensures var l := ExpireCommitments(d.ledger, block.number);
            && (forall i :: Moved(d.ledger, l, i) ==> StatusOfCommitment(l, l.commitments[i]) != Active)
            && (ReorgRequired(l, d.ledger.expiredCommitments, l.expiredCommitments) <==>
                exists i :: Moved(d.ledger, l, i) && StatusOfCommitment(l, l.commitments[i]) == Expired)
  {
    hide ChallengeKey, ExpiredPrefix, Timely;
    var l := ExpireCommitments(d.ledger, block.number);
    forall i | Moved(d.ledger, l, i)
      ensures StatusOfCommitment(l, l.commitments[i]) != Active
      ensures l.Unresolved(l.commitments[i]) <==> StatusOfCommitment(l, l.commitments[i]) == Expired
    {
      ExpiredCommitmentDecided(cfg, d, l.commitments[i], block);
    }
    if ReorgRequired(l, d.ledger.expiredCommitments, l.expiredCommitments) {
      var i :| d.ledger.expiredCommitments <= i < l.expiredCommitments && l.Unresolved(l.commitments[i]);
      assert Moved(d.ledger, l, i);
    }
  }

  /** Commitment `i` is due at `block`: it and all active ones before it expire by then, by the challenges known after the
      call, and it was not expired before it. */
  predicate Due(before: Ledger, after: Ledger, block: BlockRef, i: int)
    requires after.Shape()
  {
    0 <= before.expiredCommitments <= i < |after.commitments| &&
    forall j :: before.expiredCommitments <= j <= i ==> after.ExpiresAt(after.commitments[j]) <= block.number
  }

  /** The call syncs challenges up to a block past the commitment origin, so it goes on to expire commitments. */
  predicate ExpiresCommitments(d: Da, d': Da, c: Call) {
    c.CallAdvance? && c.block.number > d.commitmentOrigin.number && d'.challengeOrigin.number >= c.block.number
  }

  /** What such a call moves is exactly what is due. */
  lemma MovedIffDue(K: Hasher, cfg: Config, d: Da, c: Call, i: int)
    requires Timely(cfg, d) && CallInRange(cfg, c) && c.CallAdvance?
    ensures var d' := Apply(K, cfg, d, c).0;
            Moved(d.ledger, d'.ledger, i) <==> ExpiresCommitments(d, d', c) && Due(d.ledger, d'.ledger, c.block, i)
  {
    hide AdvanceChallengeOrigin, ChallengeKey, Timely, Ledger.StatusOf, Ledger.ExpiresAt, ReorgRequired;
    var (d1, r1) := AdvanceChallengeOrigin(K, cfg, d, c.block, c.logs);
    AdvanceChallengeKeepsTimely(K, cfg, d, c.block, c.logs);
    AdvanceChallengeKeepsCommitments(K, cfg, d, c.block, c.logs);
    FailedFetchStays(K, cfg, d, c.block, c.logs);
    var d' := Apply(K, cfg, d, c).0;
    if r1 == Done {
      SameExpiry(d1.ledger, d'.ledger);
    }
  }

  lemma FailedFetchStays(K: Hasher, cfg: Config, d: Da, block: BlockRef, logs: Option<seq<Event>>)
    requires d.ledger.Shape()
    ensures AdvanceChallengeOrigin(K, cfg, d, block, logs).1 != Done ==>
              AdvanceChallengeOrigin(K, cfg, d, block, logs).0 == d && d.challengeOrigin.number < block.number
  {
  }

  /** When a commitment expires depends on the challenges only. */
  lemma SameExpiry(l: Ledger, l': Ledger)
    requires l.Shape() && l'.Shape() && l'.challenges == l.challenges && l'.index == l.index
    ensures forall c :: l'.ExpiresAt(c) == l.ExpiresAt(c)
  {
    hide ChallengeKey;
  }

  /** In every run of a new manager, with resets, look-ahead and finalization anywhere in it, a call asks for a
      reorganisation exactly if it expires commitments and a due one has an expired challenge. */
  lemma ReorgsInEveryRun(K: Hasher, cfg: Config, cs: seq<Call>, k: nat)
    requires AllInRange(cfg, cs) && k < |cs|
    ensures var d := Run(K, cfg, NEW_DA, cs[..k]);
            var (d', r) := Apply(K, cfg, d, cs[k]);
            r == ReorgError <==>
            && ExpiresCommitments(d, d', cs[k])
            && exists i :: Due(d.ledger, d'.ledger, cs[k].block, i) && StatusOfCommitment(d'.ledger, d'.ledger.commitments[i]) == Expired
  {
    hide Run, Timely, Due, AdvanceL1Origin, GetInput, Ledger.Shape, StatusOfCommitment, CallInRange;
    NewIsTimely(cfg);
    RunKeepsTimely(K, cfg, NEW_DA, cs[..k]);
    var d, c := Run(K, cfg, NEW_DA, cs[..k]), cs[k];
    if c.CallAdvance? {
      AdvanceInRun(K, cfg, d, c);
    } else {
      NoReorgElsewhere(K, cfg, d, c);
    }
  }

  lemma NewIsTimely(cfg: Config)
    ensures Timely(cfg, NEW_DA)
  {
  }

  lemma AdvanceInRun(K: Hasher, cfg: Config, d: Da, c: Call)
    requires Timely(cfg, d) && CallInRange(cfg, c) && c.CallAdvance?
    ensures var (d', r) := Apply(K, cfg, d, c);
            r == ReorgError <==>
            && ExpiresCommitments(d, d', c)
            && exists i :: Due(d.ledger, d'.ledger, c.block, i) && StatusOfCommitment(d'.ledger, d'.ledger.commitments[i]) == Expired
  {
    hide Timely, Due, ExpiresCommitments, AdvanceL1Origin, Ledger.Shape, StatusOfCommitment, Moved;
    ReorgExactlyForExpired(K, cfg, d, c.block, c.logs, c.ref);
    forall i: int
      ensures Moved(d.ledger, Apply(K, cfg, d, c).0.ledger, i) <==>
              ExpiresCommitments(d, Apply(K, cfg, d, c).0, c) && Due(d.ledger, Apply(K, cfg, d, c).0.ledger, c.block, i)
    {
      MovedIffDue(K, cfg, d, c, i);
    }
  }

  lemma NoReorgElsewhere(K: Hasher, cfg: Config, d: Da, c: Call)
    requires d.ledger.Shape() && !c.CallAdvance?
    ensures Apply(K, cfg, d, c).1 != ReorgError
  {
    hide AdvanceChallengeOrigin, ChallengeKey, Ledger.Shape, Finalize, Reset;
    if c.CallGetInput? && c.next.Some? {
      AdvanceChallengeKeepsCommitments(K, cfg, d.(ledger := Track(cfg, d.ledger, c.comm, c.block)), c.next.value, c.logs);
    }
  }
}
