/** Expired challenges stay settled, resolved inputs are verified, and finalization follows inclusion order. */
module DaSafety {
  import opened Words
  import opened Merkle
  import opened Commitments
  import opened DaLedger
  import opened DaSpec
  import opened DaRuns

  // ----- no reorganisation loop -----

  function KeyOf(c: Commitment): string {
    ChallengeKey(c.data, c.inclusionBlock.number)
  }

  /** The challenge under `key` expired unresolved. */
  predicate Lost(l: Ledger, key: string)
    requires l.Shape()
  {
    key in l.index && l.challenges[l.index[key]].status == Expired
  }

  predicate Untracked(l: Ledger, key: string) {
    forall i :: 0 <= i < |l.commitments| ==> KeyOf(l.commitments[i]) != key
  }

  /** As long as the challenge is not pruned, it stays lost and its commitment untracked. */
  predicate Settled(l: Ledger, key: string)
    requires l.Shape()
  {
    key in l.index ==> Lost(l, key) && Untracked(l, key)
  }

  /** The event is not about the challenge under `key`. */
  predicate QuietEvent(e: Event, key: string) {
    e.Event? && Decode(e.commitment).Some? ==> ChallengeKey(Decode(e.commitment).value, e.block) != key
  }

  predicate QuietLogs(logs: Option<seq<Event>>, key: string) {
    logs.Some? ==> forall i :: 0 <= i < |logs.value| ==> QuietEvent(logs.value[i], key)
  }

  /** No contract event for `key`, and no reset because of an L1 reorganisation. */
  predicate QuietCall(d: Da, c: Call, key: string) {
    match c
    case CallAdvance(_, logs, _) => QuietLogs(logs, key)
    case CallGetInput(_, _, _, _, logs) => QuietLogs(logs, key)
    case CallReset(_) => d.resetting
    case CallFinalize(_) => true
  }

  predicate QuietRun(K: Hasher, cfg: Config, d: Da, cs: seq<Call>, key: string)
    requires d.ledger.Shape()
    decreases |cs|
  {
    cs == [] || (QuietCall(d, cs[0], key) && QuietRun(K, cfg, Apply(K, cfg, d, cs[0]).0, cs[1..], key))
  }

  lemma QuietEventKeeps(K: Hasher, cfg: Config, l: Ledger, block: uint64, e: Event, key: string)
    requires l.Shape() && Settled(l, key) && QuietEvent(e, key)
    ensures Settled(ApplyEvent(K, cfg, l, block, e), key)
  {
    hide ChallengeKey, Decode;
  }

  lemma {:induction false} QuietEventsKeep(K: Hasher, cfg: Config, l: Ledger, block: uint64, es: seq<Event>, key: string)
    requires l.Shape() && Settled(l, key)
    requires forall i :: 0 <= i < |es| ==> QuietEvent(es[i], key)
    ensures Settled(ApplyEvents(K, cfg, l, block, es), key)
    decreases |es|
  {
    hide ApplyEvent, QuietEvent, Settled, Ledger.Shape;
    if es != [] {
      QuietEventKeeps(K, cfg, l, block, es[0], key);
      QuietEventsKeep(K, cfg, ApplyEvent(K, cfg, l, block, es[0]), block, es[1..], key);
    }
  }

  lemma {:induction false} ExpireKeepsSettled(l: Ledger, origin: uint64, key: string)
    requires l.Shape() && Settled(l, key)
    ensures Settled(ExpireChallenges(l, origin), key)
    decreases |l.challenges| - l.expired
  {
    hide ChallengeKey;
    if l.expired < |l.challenges| && l.challenges[l.expired].resolveWindowEnd <= origin {
      ExpireKeepsSettled(ExpireOne(l), origin, key);
    }
  }

  lemma AdvanceChallengeKeepsSettled(K: Hasher, cfg: Config, d: Da, block: BlockRef, logs: Option<seq<Event>>, key: string)
    requires d.ledger.Shape() && Settled(d.ledger, key) && QuietLogs(logs, key)
    ensures Settled(AdvanceChallengeOrigin(K, cfg, d, block, logs).0.ledger, key)
  {
    hide ApplyEvents, ExpireChallenges, Settled, Ledger.Shape, QuietEvent;
    if block.number > d.challengeOrigin.number && Fetched(cfg, logs).Some? {
      var es := Fetched(cfg, logs).value;
      QuietEventsKeep(K, cfg, d.ledger, block.number, es, key);
      ExpireKeepsSettled(ApplyEvents(K, cfg, d.ledger, block.number, es), block.number, key);
    }
  }

  /** An input whose challenge is lost is skipped and not tracked. */
  lemma LostInputSkipped(
    K: Hasher, cfg: Config, d: Da, comm: CommitmentData, block: BlockRef, stored: Stored,
    next: Option<BlockRef>, logs: Option<seq<Event>>)
    requires d.ledger.Shape() && Lost(d.ledger, ChallengeKey(comm, block.number))
    ensures GetInput(K, cfg, d, comm, block, stored, next, logs) == (d, ExpiredChallenge)
  {
  }

  lemma GetInputKeepsSettled(
    K: Hasher, cfg: Config, d: Da, comm: CommitmentData, block: BlockRef, stored: Stored,
    next: Option<BlockRef>, logs: Option<seq<Event>>, key: string)
    requires d.ledger.Shape() && Settled(d.ledger, key) && QuietLogs(logs, key)
    ensures Settled(GetInput(K, cfg, d, comm, block, stored, next, logs).0.ledger, key)
  {
    hide AdvanceChallengeOrigin, ChallengeKey;
    var d1 := d.(ledger := Track(cfg, d.ledger, comm, block));
    if d.ledger.StatusOf(comm, block.number) != Expired {
      assert Settled(d1.ledger, key);
      if next.Some? {
        AdvanceChallengeKeepsSettled(K, cfg, d1, next.value, logs, key);
      }
    }
  }

  lemma ApplyKeepsSettled(K: Hasher, cfg: Config, d: Da, c: Call, key: string)
    requires d.ledger.Shape() && Settled(d.ledger, key) && QuietCall(d, c, key)
    ensures Settled(Apply(K, cfg, d, c).0.ledger, key)
  {
    hide AdvanceChallengeOrigin, ExpiredPrefix, ReorgRequired, PruneChallenges, GetInput, QuietLogs, Ledger.Shape, KeyOf;
    match c
    case CallAdvance(block, logs, ref) => AdvanceChallengeKeepsSettled(K, cfg, d, block, logs, key);
    case CallGetInput(comm, block, stored, next, logs) =>
      GetInputKeepsSettled(K, cfg, d, comm, block, stored, next, logs, key);
    case CallReset(base) =>
    case CallFinalize(l1) => PruneChallengesKeeps(PruneCommitments(d.ledger, l1.number), l1.number);
  }

  lemma {:induction false} RunKeepsSettled(K: Hasher, cfg: Config, d: Da, cs: seq<Call>, key: string)
    requires d.ledger.Shape() && Settled(d.ledger, key) && QuietRun(K, cfg, d, cs, key)
    ensures Settled(Run(K, cfg, d, cs).ledger, key)
    decreases |cs|
  {
    hide Apply, Settled, QuietCall;
    if cs != [] {
      ApplyKeepsSettled(K, cfg, d, cs[0], key);
      RunKeepsSettled(K, cfg, Apply(K, cfg, d, cs[0]).0, cs[1..], key);
    }
  }

  /** Once a reorganisation was required because of a lost commitment, and the manager was reset for it, that
      commitment is skipped and never tracked again, so it cannot require another one, until its challenge is
      pruned, the contract reports on it again, or L1 itself reorganises. */
  lemma NoReorgLoop(
    K: Hasher, cfg: Config, d: Da, block: BlockRef, logs: Option<seq<Event>>, ref: Option<BlockRef>,
    i: int, base: BlockRef, cs: seq<Call>, stored: Stored, next: Option<BlockRef>, logs': Option<seq<Event>>)
    requires Timely(cfg, d) && InRange(cfg, block)
    requires AdvanceL1Origin(K, cfg, d, block, logs, ref).1 == ReorgError
    requires var l := AdvanceL1Origin(K, cfg, d, block, logs, ref).0.ledger;
             Moved(d.ledger, l, i) && StatusOfCommitment(l, l.commitments[i]) == Expired
    requires var d' := AdvanceL1Origin(K, cfg, d, block, logs, ref).0;
             QuietRun(K, cfg, Reset(d', base), cs, KeyOf(d'.ledger.commitments[i]))
    ensures var d' := AdvanceL1Origin(K, cfg, d, block, logs, ref).0;
            var c := d'.ledger.commitments[i];
            var e := Run(K, cfg, Reset(d', base), cs);
            KeyOf(c) in e.ledger.index ==>
              Untracked(e.ledger, KeyOf(c)) &&
              GetInput(K, cfg, e, c.data, c.inclusionBlock, stored, next, logs') == (e, ExpiredChallenge)
  {
    hide AdvanceL1Origin, Run, QuietRun, GetInput;
    ReorgExactlyForExpired(K, cfg, d, block, logs, ref);
    var d' := AdvanceL1Origin(K, cfg, d, block, logs, ref).0;
    var c := d'.ledger.commitments[i];
    RunKeepsSettled(K, cfg, Reset(d', base), cs, KeyOf(c));
    var e := Run(K, cfg, Reset(d', base), cs);
    if KeyOf(c) in e.ledger.index {
      LostInputSkipped(K, cfg, e, c.data, c.inclusionBlock, stored, next, logs');
    }
  }

  // ----- resolved inputs are verified -----

  /** The event is about a Keccak commitment, as all events of the challenge contract are, or at least about one whose key
      no Keccak commitment has. */
  ghost predicate ContractEvent(e: Event) {
    e.Event? && Decode(e.commitment).Some? ==> Distinguished(Decode(e.commitment).value, e.block)
  }

  ghost predicate ContractLogs(logs: Option<seq<Event>>) {
    logs.Some? ==> forall i :: 0 <= i < |logs.value| ==> ContractEvent(logs.value[i])
  }

  ghost predicate ContractCall(c: Call) {
    match c
    case CallAdvance(_, logs, _) => ContractLogs(logs)
    case CallGetInput(_, _, _, _, logs) => ContractLogs(logs)
    case CallReset(_) => true
    case CallFinalize(_) => true
  }

  lemma EventKeepsVerified(K: Hasher, cfg: Config, l: Ledger, block: uint64, e: Event)
    requires l.Shape() && Verified(K, l) && ContractEvent(e) && cfg.commitmentType == Keccak256Type
    ensures Verified(K, ApplyEvent(K, cfg, l, block, e))
  {
    hide ChallengeKey, Decode, Resolve, Distinguished;
    if e.Event? && Decode(e.commitment).Some? && e.status == 2 && e.tx.Tx? && e.tx.input.Some? {
      var comm := Decode(e.commitment).value;
      if comm.Verify(K, e.tx.input.value) {
        ResolveKeepsVerified(K, l, comm, e.block, e.tx.input.value);
      }
    }
  }

  lemma {:induction false} EventsKeepVerified(K: Hasher, cfg: Config, l: Ledger, block: uint64, es: seq<Event>)
    requires l.Shape() && Verified(K, l) && cfg.commitmentType == Keccak256Type
    requires forall i :: 0 <= i < |es| ==> ContractEvent(es[i])
    ensures Verified(K, ApplyEvents(K, cfg, l, block, es))
    decreases |es|
  {
    hide ApplyEvent, Verified, Ledger.Shape, ContractEvent;
    if es != [] {
      EventKeepsVerified(K, cfg, l, block, es[0]);
      EventsKeepVerified(K, cfg, ApplyEvent(K, cfg, l, block, es[0]), block, es[1..]);
    }
  }

  lemma AdvanceChallengeKeepsVerified(K: Hasher, cfg: Config, d: Da, block: BlockRef, logs: Option<seq<Event>>)
    requires d.ledger.Shape() && Verified(K, d.ledger) && ContractLogs(logs)
    ensures Verified(K, AdvanceChallengeOrigin(K, cfg, d, block, logs).0.ledger)
  {
    hide ExpireChallenges, Verified, Ledger.Shape, ContractEvent, ApplyEvent;
    if block.number > d.challengeOrigin.number && Fetched(cfg, logs).Some? {
      var es := Fetched(cfg, logs).value;
      if cfg.commitmentType == Keccak256Type {
        EventsKeepVerified(K, cfg, d.ledger, block.number, es);
      }
      ExpireKeepsVerified(K, ApplyEvents(K, cfg, d.ledger, block.number, es), block.number);
    }
  }

  lemma ApplyKeepsVerified(K: Hasher, cfg: Config, d: Da, c: Call)
    requires d.ledger.Shape() && Verified(K, d.ledger) && ContractCall(c)
    ensures Verified(K, Apply(K, cfg, d, c).0.ledger)
  {
    hide AdvanceChallengeOrigin, ExpiredPrefix, ReorgRequired, PruneChallenges, ContractLogs, Ledger.Shape, ChallengeKey;
    match c
    case CallAdvance(block, logs, ref) => AdvanceChallengeKeepsVerified(K, cfg, d, block, logs);
    case CallGetInput(comm, block, stored, next, logs) =>
      if next.Some? {
        AdvanceChallengeKeepsVerified(K, cfg, d.(ledger := Track(cfg, d.ledger, comm, block)), next.value, logs);
      }
    case CallReset(base) =>
    case CallFinalize(l1) => PruneChallengesKeeps(PruneCommitments(d.ledger, l1.number), l1.number);
  }

  lemma {:induction false} RunKeepsVerified(K: Hasher, cfg: Config, d: Da, cs: seq<Call>)
    requires d.ledger.Shape() && Verified(K, d.ledger)
    requires forall i :: 0 <= i < |cs| ==> ContractCall(cs[i])
    ensures Verified(K, Run(K, cfg, d, cs).ledger)
    decreases |cs|
  {
    hide Apply, Verified, ContractCall;
    if cs != [] {
      ApplyKeepsVerified(K, cfg, d, cs[0]);
      RunKeepsVerified(K, cfg, Apply(K, cfg, d, cs[0]).0, cs[1..]);
    }
  }

  /** After any run, what is served for a Keccak commitment that storage does not have hashes to it. */
  lemma ServedInputVerifies(
    K: Hasher, cfg: Config, cs: seq<Call>, comm: CommitmentData, block: BlockRef,
    next: Option<BlockRef>, logs: Option<seq<Event>>)
    requires forall i :: 0 <= i < |cs| ==> ContractCall(cs[i])
    requires comm.Keccak?
    ensures var r := GetInput(K, cfg, Run(K, cfg, NEW_DA, cs), comm, block, NotFound, next, logs).1;
            r.Data? ==> K(r.data) == comm.hash
  {
    hide Run, AdvanceChallengeOrigin, ContractCall, ChallengeKey;
    RunKeepsVerified(K, cfg, NEW_DA, cs);
    var l := Run(K, cfg, NEW_DA, cs).ledger;
    var key := ChallengeKey(comm, block.number);
    AdvanceReplies(K, cfg, Run(K, cfg, NEW_DA, cs).(ledger := Track(cfg, l, comm, block)), next, logs);
    if key in l.index {
      var r := l.challenges[l.index[key]];
      if r.status == Resolved {
        SameKeyVerifies(r.commData, r.commBlock, comm, block.number, K, r.input);
      }
    }
  }

  lemma AdvanceReplies(K: Hasher, cfg: Config, d: Da, next: Option<BlockRef>, logs: Option<seq<Event>>)
    requires d.ledger.Shape()
    ensures !WaitForChallenge(K, cfg, d, next, logs).1.Data?
  {
    if next.Some? {
      AdvanceChallengeKeepsCommitments(K, cfg, d, next.value, logs);
    }
  }

  // ----- commitments are finalized in inclusion order -----

  /** Commitments are in inclusion order, and the last pruned one is remembered. */
  ghost predicate Chronological(l: Ledger)
    ensures Chronological(l) ==> l.Shape()
  {
    && l.Shape()
    && (forall i, j :: 0 <= i < j < |l.commitments| ==> l.commitments[i].inclusionBlock.number <= l.commitments[j].inclusionBlock.number)
    && l.lastPruned == (if l.prunedCommitments == 0 then GENESIS else l.commitments[l.prunedCommitments - 1].inclusionBlock)
  }

  /** The block is not before any commitment tracked so far. */
  predicate NotBefore(l: Ledger, block: BlockRef) {
    forall i :: 0 <= i < |l.commitments| ==> l.commitments[i].inclusionBlock.number <= block.number
  }

  predicate InOrder(d: Da, c: Call) {
    match c
    case CallAdvance(_, _, _) => true
    case CallGetInput(_, block, _, _, _) => NotBefore(d.ledger, block)
    case CallReset(_) => false
    case CallFinalize(_) => true
  }

  /** A run without resets that tracks commitments in the order of their blocks. */
  predicate InOrderRun(K: Hasher, cfg: Config, d: Da, cs: seq<Call>)
    requires d.ledger.Shape()
    decreases |cs|
  {
    cs == [] || (InOrder(d, cs[0]) && InOrderRun(K, cfg, Apply(K, cfg, d, cs[0]).0, cs[1..]))
  }

  lemma FinalizeIsChronological(d: Da, l1: BlockRef)
    requires Chronological(d.ledger)
    ensures Chronological(Finalize(d, l1).ledger)
    ensures Finalize(d, l1).ledger.lastPruned.number >= d.ledger.lastPruned.number
  {
    hide ExpiredPrefix, PruneChallenges, ChallengeKey;
    PruneChallengesKeeps(PruneCommitments(d.ledger, l1.number), l1.number);
  }

  lemma SameCommitments(l: Ledger, l': Ledger)
    requires Chronological(l) && l'.Shape() && l'.commitments == l.commitments
    requires l'.prunedCommitments == l.prunedCommitments && l'.lastPruned == l.lastPruned
    ensures Chronological(l')
  {
    hide ChallengeKey;
  }

  lemma TrackIsChronological(cfg: Config, l: Ledger, comm: CommitmentData, block: BlockRef)
    requires Chronological(l) && NotBefore(l, block)
    ensures Chronological(Track(cfg, l, comm, block))
  {
    hide ChallengeKey;
  }

  lemma ApplyIsChronological(K: Hasher, cfg: Config, d: Da, c: Call)
    requires Chronological(d.ledger) && InOrder(d, c)
    ensures var d' := Apply(K, cfg, d, c).0;
            Chronological(d'.ledger) && d'.ledger.lastPruned.number >= d.ledger.lastPruned.number
  {
    hide AdvanceChallengeOrigin, ExpiredPrefix, ReorgRequired, Chronological, NotBefore, Ledger.Shape;
    match c
    case CallAdvance(block, logs, ref) =>
      AdvanceChallengeKeepsCommitments(K, cfg, d, block, logs);
      SameCommitments(d.ledger, Apply(K, cfg, d, c).0.ledger);
    case CallGetInput(comm, block, stored, next, logs) =>
      var d1 := d.(ledger := Track(cfg, d.ledger, comm, block));
      TrackIsChronological(cfg, d.ledger, comm, block);
      if next.Some? {
        AdvanceChallengeKeepsCommitments(K, cfg, d1, next.value, logs);
        SameCommitments(d1.ledger, AdvanceChallengeOrigin(K, cfg, d1, next.value, logs).0.ledger);
      }
    case CallFinalize(l1) => FinalizeIsChronological(d, l1);
  }

  /** In such a run the last pruned commitment never goes back, and nothing still tracked was included before it. */
  lemma {:induction false} FinalizationInOrder(K: Hasher, cfg: Config, d: Da, cs: seq<Call>)
    requires Chronological(d.ledger) && InOrderRun(K, cfg, d, cs)
    ensures var l := Run(K, cfg, d, cs).ledger;
            && Chronological(l) && l.lastPruned.number >= d.ledger.lastPruned.number
            && forall i :: l.prunedCommitments <= i < |l.commitments| ==> l.commitments[i].inclusionBlock.number >= l.lastPruned.number
    decreases |cs|
  {
    hide Apply, InOrder, ChallengeKey;
    if cs != [] {
      ApplyIsChronological(K, cfg, d, cs[0]);
      FinalizationInOrder(K, cfg, Apply(K, cfg, d, cs[0]).0, cs[1..]);
    }
  }
}
