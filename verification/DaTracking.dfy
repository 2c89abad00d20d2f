/** What the alt-DA manager answers, that every input it hands out is tracked until it is decided, and that none is lost
    silently (op-plasma/damgr.go and dastate.go). */
module DaTracking {
  import opened Words
  import opened Merkle
  import opened Commitments
  import opened DaLedger
  import opened DaSpec
  import opened DaRuns
  import opened DaSafety

  const U64 := 0x1_0000_0000_0000_0000

  // ----- what single calls mean -----

  /** The answer to a request for an input, by commitment type, challenge and storage. */
  lemma InputAnswers(
    K: Hasher, cfg: Config, d: Da, comm: CommitmentData, block: BlockRef, stored: Stored,
    next: Option<BlockRef>, logs: Option<seq<Event>>)
    requires d.ledger.Shape()
    ensures var r := GetInput(K, cfg, d, comm, block, stored, next, logs).1;
            var ch := d.ledger.Lookup(ChallengeKey(comm, block.number));
            var skip := comm.Keccak? != cfg.commitmentType.Keccak256Type? || (ch.Some? && ch.value.status == Expired);
            var resolved, open := ch.Some? && ch.value.status == Resolved, ch.None? || ch.value.status == Uninitialized;
            && (r == ExpiredChallenge <==> skip)
            && (!skip && stored.Found? ==> r == Data(stored.data))
            && (!skip && stored.Failed? ==> r == StorageError)
            && (!skip && stored.NotFound? && resolved ==> r == if comm.Keccak? then Data(ch.value.input) else MissingPastWindow)
            && (!skip && stored.NotFound? && open && d.challengeOrigin.number > (block.number + cfg.challengeWindow) % U64 ==>
                  r == MissingPastWindow)
            && (!skip && stored.NotFound? && !resolved && !(open && d.challengeOrigin.number > (block.number + cfg.challengeWindow) % U64) ==>
                  r == if CannotFetch(cfg, d, next, logs) then FetchError else PendingChallenge)
  {
    hide ChallengeKey, ApplyEvents, ExpireChallenges;
  }

  /** The next block, or the events of a block past the challenge origin, cannot be had; generic commitments have none. */
  predicate CannotFetch(cfg: Config, d: Da, next: Option<BlockRef>, logs: Option<seq<Event>>) {
    next.None? || (next.value.number > d.challengeOrigin.number && cfg.commitmentType.Keccak256Type? && logs.None?)
  }

  /** An input is tracked, with the end of its challenge window, unless it is skipped. */
  lemma InputIsTracked(
    K: Hasher, cfg: Config, d: Da, comm: CommitmentData, block: BlockRef, stored: Stored,
    next: Option<BlockRef>, logs: Option<seq<Event>>)
    requires d.ledger.Shape()
    ensures var (d', r) := GetInput(K, cfg, d, comm, block, stored, next, logs);
            if r == ExpiredChallenge then d' == d
            else
              && d'.ledger.commitments == d.ledger.commitments + [Commitment(comm, block, (block.number + cfg.challengeWindow) % U64)]
              && d'.ledger.expiredCommitments == d.ledger.expiredCommitments
              && d'.ledger.prunedCommitments == d.ledger.prunedCommitments
  {
    hide AdvanceChallengeOrigin, ChallengeKey;
    if next.Some? {
      AdvanceChallengeKeepsCommitments(K, cfg, d.(ledger := Track(cfg, d.ledger, comm, block)), next.value, logs);
    }
  }

  /** What an event of the challenge contract does: status 1 opens a challenge whose window ends `resolveWindow` blocks
      on, status 2 resolves the challenge against the commitment if the input checks out, nothing else does anything. */
  lemma EventMeaning(K: Hasher, cfg: Config, l: Ledger, block: uint64, e: Event)
    requires l.Shape() && cfg.commitmentType == Keccak256Type
    ensures var l' := ApplyEvent(K, cfg, l, block, e);
            if e.Undecodable? || Decode(e.commitment).None? then l' == l
            else
              var comm := Decode(e.commitment).value;
              var key, before := ChallengeKey(comm, e.block), l.Lookup(ChallengeKey(comm, e.block));
              var accepted := e.status == 2 && e.tx.Tx? && e.tx.input.Some? && (comm.Keccak? ==> comm.hash == K(e.tx.input.value));
              && (e.status == 1 ==>
                    && l'.Lookup(key) == Some(Record(comm, e.block, (block + cfg.resolveWindow) % U64, [], Active))
                    && l'.challenges == l.challenges + [l'.Lookup(key).value])
              && (accepted && before.Some? ==>
                    l'.Lookup(key) == Some(before.value.(status := Resolved, input := e.tx.input.value)))
              && (e.status != 1 && !(accepted && before.Some?) ==> l' == l)
              && (forall k :: k != key ==> l'.Lookup(k) == l.Lookup(k) || (accepted && k in l.index && l.index[k] == l.index[key]))
  {
    hide ChallengeKey, Decode;
  }

  /** A commitment expires with the challenge against it, or with its own challenge window if there is none. */
  lemma ExpiryMeaning(l: Ledger, c: Commitment)
    requires l.Shape()
    ensures var ch := l.Lookup(ChallengeKey(c.data, c.inclusionBlock.number));
            && (ch.None? ==> l.ExpiresAt(c) == c.challengeWindowEnd && !l.Unresolved(c))
            && (ch.Some? ==> l.ExpiresAt(c) == ch.value.resolveWindowEnd && (l.Unresolved(c) <==> ch.value.status != Resolved))
  {
  }

  /** Finalization drops exactly the expired commitments before the first that expires after the block, and the last one
      dropped becomes the finalized head; if none is, the head is the last one dropped before. */
  lemma FinalizeMeaning(d: Da, l1: BlockRef)
    requires d.ledger.Shape()
    ensures var d' := Finalize(d, l1);
            var l, l', n := d.ledger, d'.ledger, d'.ledger.prunedCommitments;
            && d'.l1FinalizedHead == l1 && d'.finalizedHead == l'.lastPruned && l'.commitments == l.commitments
            && l.prunedCommitments <= n <= l'.expiredCommitments == l.expiredCommitments
            && (forall i :: l.prunedCommitments <= i < n ==> l.ExpiresAt(l.commitments[i]) <= l1.number)
            && (n < l.expiredCommitments ==> l.ExpiresAt(l.commitments[n]) > l1.number)
            && l'.lastPruned == (if n > l.prunedCommitments then l.commitments[n - 1].inclusionBlock else l.lastPruned)
  {
    hide ChallengeKey, PruneChallenges, Ledger.ExpiresAt;
    PruneChallengesKeeps(PruneCommitments(d.ledger, l1.number), l1.number);
  }

  lemma {:induction false} PrunedChallenges(l: Ledger, origin: uint64)
    requires l.Shape()
    ensures var l' := PruneChallenges(l, origin);
            && l.pruned <= l'.pruned <= l'.expired == l.expired && l'.challenges == l.challenges
            && (forall i :: l.pruned <= i < l'.pruned ==> l.challenges[i].resolveWindowEnd <= origin && l.challenges[i].Key() !in l'.index)
            && (l'.pruned < l.expired ==> l.challenges[l'.pruned].resolveWindowEnd > origin)
            && (forall k :: k in l'.index ==> k in l.index)
    decreases l.expired - l.pruned
  {
    hide Record.Key;
    if l.pruned < l.expired && l.challenges[l.pruned].resolveWindowEnd <= origin {
      PrunedChallenges(PruneOne(l), origin);
    }
  }

  /** It also forgets exactly the expired challenges before the first whose window ends after the block, and their keys. */
  lemma FinalizeForgetsChallenges(d: Da, l1: BlockRef)
    requires d.ledger.Shape()
    ensures var l, l' := d.ledger, Finalize(d, l1).ledger;
            && l.pruned <= l'.pruned <= l'.expired == l.expired && l'.challenges == l.challenges
            && (forall i :: l.pruned <= i < l'.pruned ==>
                              && l.challenges[i].resolveWindowEnd <= l1.number
                              && ChallengeKey(l.challenges[i].commData, l.challenges[i].commBlock) !in l'.index)
            && (l'.pruned < l.expired ==> l.challenges[l'.pruned].resolveWindowEnd > l1.number)
  {
    hide ChallengeKey, PruneChallenges, ExpiredPrefix;
    PrunedChallenges(PruneCommitments(d.ledger, l1.number), l1.number);
    assert forall i :: 0 <= i < |d.ledger.challenges| ==>
      d.ledger.challenges[i].Key() == ChallengeKey(d.ledger.challenges[i].commData, d.ledger.challenges[i].commBlock);
  }

  /** While nothing is tracked, the finalized head follows L1 once that is finalized past the challenge window. */
  lemma FinalizedFollowsL1(cfg: Config, d: Da, ref: Option<BlockRef>)
    ensures var (d', r) := UpdateFinalizedFromL1(cfg, d, ref);
            && d' == d.(finalizedHead := if d.l1FinalizedHead.number >= cfg.challengeWindow && ref.Some? then ref.value else d.finalizedHead)
            && (r == if d.l1FinalizedHead.number >= cfg.challengeWindow && ref.None? then FetchError else Done)
  {
  }

  /** A reset after a required reorganisation forgets the commitments and keeps every challenge; any other forgets both. */
  lemma ResetMeaning(d: Da, base: BlockRef)
    requires d.ledger.Shape()
    ensures var d', l, l' := Reset(d, base), d.ledger, Reset(d, base).ledger;
            && !d'.resetting && d'.commitmentOrigin == base && l'.commitments == [] && l'.lastPruned == l.lastPruned
            && (if d.resetting
                then l'.challenges == l.challenges && l'.index == l.index && l'.expired == l.expired && d'.challengeOrigin == d.challengeOrigin
                else l'.challenges == [] && l'.index == map[] && d'.challengeOrigin == base)
  {
  }

  /** Advancing moves both origins up to the block; where it asks for a reorganisation it moves the challenge origin only
      and marks the manager for a reset. */
  lemma OriginsAdvance(K: Hasher, cfg: Config, d: Da, block: BlockRef, logs: Option<seq<Event>>, ref: Option<BlockRef>)
    requires d.ledger.Shape()
    ensures var (d', r) := AdvanceL1Origin(K, cfg, d, block, logs, ref);
            && (r == Done ==>
                  && d'.challengeOrigin == (if block.number > d.challengeOrigin.number then block else d.challengeOrigin)
                  && d'.commitmentOrigin == (if block.number > d.commitmentOrigin.number then block else d.commitmentOrigin)
                  && d'.resetting == d.resetting)
            && (r == ReorgError ==> d'.resetting && d'.commitmentOrigin == d.commitmentOrigin && block.number > d.commitmentOrigin.number)
  {
    hide ApplyEvents, ExpireChallenges, ExpiredPrefix, ReorgRequired, ChallengeKey;
  }

  /** An advance that succeeds moves the finalized head only if every commitment and every challenge is pruned, and then to
      the block a challenge window below the finalized one. */
  lemma FinalizedWhileIdle(K: Hasher, cfg: Config, d: Da, block: BlockRef, logs: Option<seq<Event>>, ref: Option<BlockRef>)
    requires d.ledger.Shape()
    ensures var (d', r) := AdvanceL1Origin(K, cfg, d, block, logs, ref);
            var idle := d'.ledger.pruned == |d'.ledger.challenges| && d'.ledger.prunedCommitments == |d'.ledger.commitments|;
            && d'.l1FinalizedHead == d.l1FinalizedHead
            && (r == Done && idle && d.l1FinalizedHead.number >= cfg.challengeWindow ==> ref.Some? && d'.finalizedHead == ref.value)
            && (!(r == Done && idle && d.l1FinalizedHead.number >= cfg.challengeWindow) ==> d'.finalizedHead == d.finalizedHead)
  {
    hide ApplyEvents, ExpireChallenges, ExpiredPrefix, ReorgRequired, ChallengeKey;
  }

  // ----- inputs stay tracked -----

  predicate NoResets(cs: seq<Call>) {
    forall i :: 0 <= i < |cs| ==> !cs[i].CallReset?
  }

  lemma ApplyGrows(K: Hasher, cfg: Config, d: Da, c: Call)
    requires d.ledger.Shape() && !c.CallReset?
    ensures var l, l' := d.ledger, Apply(K, cfg, d, c).0.ledger;
            && l.commitments <= l'.commitments && l.expiredCommitments <= l'.expiredCommitments
            && (!c.CallAdvance? ==> l'.expiredCommitments == l.expiredCommitments)
  {
    hide AdvanceChallengeOrigin, ChallengeKey, PruneChallenges, ReorgRequired;
    match c
    case CallAdvance(block, logs, ref) => AdvanceChallengeKeepsCommitments(K, cfg, d, block, logs);
    case CallGetInput(comm, block, stored, next, logs) => InputIsTracked(K, cfg, d, comm, block, stored, next, logs);
    case CallFinalize(l1) => FinalizeMeaning(d, l1);
  }

  lemma {:induction false} RunSnoc(K: Hasher, cfg: Config, d: Da, cs: seq<Call>, c: Call)
    requires d.ledger.Shape()
    ensures Run(K, cfg, d, cs + [c]) == Apply(K, cfg, Run(K, cfg, d, cs), c).0
    decreases |cs|
  {
    hide Apply;
    if cs == [] {
      assert cs + [c] == [c] && [c][1..] == [];
    } else {
      assert (cs + [c])[1..] == cs[1..] + [c];
      RunSnoc(K, cfg, Apply(K, cfg, d, cs[0]).0, cs[1..], c);
    }
  }

  /** The state after `n` of the calls, and after one more. */
  lemma RunNext(K: Hasher, cfg: Config, d: Da, cs: seq<Call>, n: nat)
    requires d.ledger.Shape() && n < |cs|
    ensures Run(K, cfg, d, cs[..n + 1]) == Apply(K, cfg, Run(K, cfg, d, cs[..n]), cs[n]).0
  {
    hide Run, Apply;
    RunSnoc(K, cfg, d, cs[..n], cs[n]);
    assert cs[..n + 1] == cs[..n] + [cs[n]];
  }

  lemma {:induction false} RunGrows(K: Hasher, cfg: Config, d: Da, cs: seq<Call>, n: nat)
    requires d.ledger.Shape() && n <= |cs| && NoResets(cs)
    ensures var l, l' := d.ledger, Run(K, cfg, d, cs[..n]).ledger;
            l.commitments <= l'.commitments && l.expiredCommitments <= l'.expiredCommitments
    decreases n
  {
    hide Apply, Run;
    if n == 0 {
      RunNothing(K, cfg, d, cs);
    } else {
      RunGrows(K, cfg, d, cs, n - 1);
      RunNext(K, cfg, d, cs, n - 1);
      ApplyGrows(K, cfg, Run(K, cfg, d, cs[..n - 1]), cs[n - 1]);
    }
  }

  lemma RunNothing(K: Hasher, cfg: Config, d: Da, cs: seq<Call>)
    requires d.ledger.Shape()
    ensures Run(K, cfg, d, cs[..0]) == d
  {
  }

  /** Commitment `i` is the given one, with its challenge window. */
  predicate Holds(cfg: Config, l: Ledger, i: nat, comm: CommitmentData, block: BlockRef) {
    && i < |l.commitments| && l.commitments[i].data == comm && l.commitments[i].inclusionBlock == block
    && (block.number + cfg.challengeWindow < U64 ==> l.commitments[i].challengeWindowEnd == block.number + cfg.challengeWindow)
  }

  /** In every run of a new manager, an input that was handed to derivation is tracked from then on, as long as no reset
      follows, whatever else is called. */
  lemma UsedInputsAreTracked(K: Hasher, cfg: Config, cs: seq<Call>, k: nat)
    requires k < |cs| && cs[k].CallGetInput? && NoResets(cs[k + 1..])
    requires Apply(K, cfg, Run(K, cfg, NEW_DA, cs[..k]), cs[k]).1.Data?
    ensures var before := Run(K, cfg, NEW_DA, cs[..k]).ledger;
            var i := |before.commitments|;
            && Holds(cfg, Run(K, cfg, NEW_DA, cs).ledger, i, cs[k].comm, cs[k].block)
            && before.expiredCommitments <= i && Run(K, cfg, NEW_DA, cs[..k + 1]).ledger.expiredCommitments <= i
  {
    NewIsTimely(cfg);
    hide Run, GetInput, Ledger.Shape;
    var d, c := Run(K, cfg, NEW_DA, cs[..k]), cs[k];
    ShapeBounds(d.ledger);
    InputIsTracked(K, cfg, d, c.comm, c.block, c.stored, c.next, c.logs);
    RunNext(K, cfg, NEW_DA, cs, k);
    var d', rest := Run(K, cfg, NEW_DA, cs[..k + 1]), cs[k + 1..];
    RunGrows(K, cfg, d', rest, |rest|);
    assert rest[..|rest|] == rest && cs[..k + 1] + rest == cs;
    RunConcat(K, cfg, NEW_DA, cs[..k + 1], rest);
    WrapsNot(c.block.number, cfg.challengeWindow);
  }

  lemma WrapsNot(x: uint64, y: uint64)
    ensures x + y < U64 ==> (x + y) % U64 == x + y
  {
  }

  lemma ShapeBounds(l: Ledger)
    requires l.Shape()
    ensures l.prunedCommitments <= l.expiredCommitments <= |l.commitments|
  {
  }

  lemma {:induction false} RunConcat(K: Hasher, cfg: Config, d: Da, a: seq<Call>, b: seq<Call>)
    requires d.ledger.Shape()
    ensures Run(K, cfg, d, a + b) == Run(K, cfg, Run(K, cfg, d, a), b)
    decreases |a|
  {
    hide Apply;
    if a == [] {
      assert a + b == b;
    } else {
      assert (a + b)[1..] == a[1..] + b;
      RunConcat(K, cfg, Apply(K, cfg, d, a[0]).0, a[1..], b);
    }
  }

  // ----- and are decided in the open -----

  /** Where commitment `i` leaves the active part: at an advance, with its challenge not open any more, and that advance
      asks for a reorganisation if the challenge was lost. */
  ghost predicate DecidedAt(K: Hasher, cfg: Config, d: Da, c: Call, i: nat)
    requires d.ledger.Shape()
  {
    var (d', r) := Apply(K, cfg, d, c);
    && c.CallAdvance? && Moved(d.ledger, d'.ledger, i)
    && StatusOfCommitment(d'.ledger, d'.ledger.commitments[i]) != Active
    && (StatusOfCommitment(d'.ledger, d'.ledger.commitments[i]) == Expired ==> r == ReorgError)
  }

  /** A tracked commitment that is not in the active part any more was decided at some call. */
  lemma {:induction false} DecidedSomewhere(K: Hasher, cfg: Config, d: Da, cs: seq<Call>, i: nat, n: nat) returns (j: nat)
    requires Timely(cfg, d) && AllInRange(cfg, cs) && NoResets(cs) && n <= |cs|
    requires d.ledger.expiredCommitments <= i < Run(K, cfg, d, cs[..n]).ledger.expiredCommitments
    ensures j < n && DecidedAt(K, cfg, Run(K, cfg, d, cs[..j]), cs[j], i)
    decreases n
  {
    hide Run, Apply, Timely, Moved, StatusOfCommitment;
    if n == 0 {
      RunNothing(K, cfg, d, cs);
      assert false;
    }
    var before := Run(K, cfg, d, cs[..n - 1]);
    if i < before.ledger.expiredCommitments {
      j := DecidedSomewhere(K, cfg, d, cs, i, n - 1);
    } else {
      j := n - 1;
      RunKeepsTimely(K, cfg, d, cs[..n - 1]);
      RunNext(K, cfg, d, cs, n - 1);
      ApplyGrows(K, cfg, before, cs[n - 1]);
      DecidedNow(K, cfg, before, cs[n - 1], i);
    }
  }

  lemma DecidedNow(K: Hasher, cfg: Config, d: Da, c: Call, i: nat)
    requires Timely(cfg, d) && CallInRange(cfg, c) && c.CallAdvance?
    requires d.ledger.expiredCommitments <= i < Apply(K, cfg, d, c).0.ledger.expiredCommitments
    ensures DecidedAt(K, cfg, d, c, i)
  {
    hide AdvanceL1Origin, Timely, StatusOfCommitment, Ledger.Shape;
    ReorgExactlyForExpired(K, cfg, d, c.block, c.logs, c.ref);
    ShapeBounds(Apply(K, cfg, d, c).0.ledger);
    assert Moved(d.ledger, Apply(K, cfg, d, c).0.ledger, i);
  }

  /** In every run of a new manager, an input that was handed to derivation and is not waiting for its windows any more
      was decided at some later call: not while its challenge was open, and with a reorganisation if the challenge was
      lost. So no input that derivation used is lost silently. */
  lemma UsedInputsAreDecided(K: Hasher, cfg: Config, cs: seq<Call>, k: nat) returns (j: nat)
    requires k < |cs| && cs[k].CallGetInput? && NoResets(cs[k + 1..]) && AllInRange(cfg, cs)
    requires Apply(K, cfg, Run(K, cfg, NEW_DA, cs[..k]), cs[k]).1.Data?
    requires |Run(K, cfg, NEW_DA, cs[..k]).ledger.commitments| < Run(K, cfg, NEW_DA, cs).ledger.expiredCommitments
    ensures k < j < |cs| && DecidedAt(K, cfg, Run(K, cfg, NEW_DA, cs[..j]), cs[j], |Run(K, cfg, NEW_DA, cs[..k]).ledger.commitments|)
  {
    hide Run, Apply, Timely, DecidedAt;
    var i, d, rest := |Run(K, cfg, NEW_DA, cs[..k]).ledger.commitments|, Run(K, cfg, NEW_DA, cs[..k + 1]), cs[k + 1..];
    UsedInputsAreTracked(K, cfg, cs, k);
    NewIsTimely(cfg);
    RunKeepsTimely(K, cfg, NEW_DA, cs[..k + 1]);
    assert rest[..|rest|] == rest && cs[..k + 1] + rest == cs;
    RunConcat(K, cfg, NEW_DA, cs[..k + 1], rest);
    var m := DecidedSomewhere(K, cfg, d, rest, i, |rest|);
    j := k + 1 + m;
    assert cs[..k + 1] + rest[..m] == cs[..j];
    RunConcat(K, cfg, NEW_DA, cs[..k + 1], rest[..m]);
  }

  // ----- a challenge that nobody resolves forces a reorganisation, one that is resolved never does -----

  /** The challenge under `key`, as long as it is not pruned, was not resolved. */
  predicate Contested(l: Ledger, key: string)
    requires l.Shape()
  {
    key in l.index ==> l.challenges[l.index[key]].status in {Active, Expired}
  }

  /** The challenge under `key`, as long as it is not pruned, was resolved. */
  predicate Answered(l: Ledger, key: string)
    requires l.Shape()
  {
    key in l.index ==> l.challenges[l.index[key]].status == Resolved
  }

  /** `l'` has the challenge under `key` contested or answered if `l` has, and has none if `l` has none. */
  ghost predicate KeepsContested(l: Ledger, l': Ledger, key: string)
    requires l.Shape() && l'.Shape()
  {
    && (Contested(l, key) ==> Contested(l', key)) && (Answered(l, key) ==> Answered(l', key))
    && (key !in l.index ==> key !in l'.index)
  }

  lemma EventKeepsContested(K: Hasher, cfg: Config, l: Ledger, block: uint64, e: Event, key: string)
    requires l.Shape() && QuietEvent(e, key)
    ensures KeepsContested(l, ApplyEvent(K, cfg, l, block, e), key)
  {
    hide ChallengeKey, Decode;
  }

  lemma {:induction false} EventsKeepContested(K: Hasher, cfg: Config, l: Ledger, block: uint64, es: seq<Event>, key: string)
    requires l.Shape() && forall i :: 0 <= i < |es| ==> QuietEvent(es[i], key)
    ensures KeepsContested(l, ApplyEvents(K, cfg, l, block, es), key)
    decreases |es|
  {
    hide ApplyEvent, QuietEvent, Contested, Answered, Ledger.Shape;
    if es != [] {
      EventKeepsContested(K, cfg, l, block, es[0], key);
      EventsKeepContested(K, cfg, ApplyEvent(K, cfg, l, block, es[0]), block, es[1..], key);
    }
  }

  lemma {:induction false} ExpireKeepsContested(l: Ledger, origin: uint64, key: string)
    requires l.Shape()
    ensures KeepsContested(l, ExpireChallenges(l, origin), key)
    decreases |l.challenges| - l.expired
  {
    hide ChallengeKey;
    if l.expired < |l.challenges| && l.challenges[l.expired].resolveWindowEnd <= origin {
      ExpireKeepsContested(ExpireOne(l), origin, key);
    }
  }

  lemma AdvanceKeepsContested(K: Hasher, cfg: Config, d: Da, block: BlockRef, logs: Option<seq<Event>>, key: string)
    requires d.ledger.Shape() && QuietLogs(logs, key)
    ensures KeepsContested(d.ledger, AdvanceChallengeOrigin(K, cfg, d, block, logs).0.ledger, key)
  {
    hide ApplyEvents, ExpireChallenges, Contested, Answered, Ledger.Shape, QuietEvent;
    if block.number > d.challengeOrigin.number && Fetched(cfg, logs).Some? {
      var es := Fetched(cfg, logs).value;
      EventsKeepContested(K, cfg, d.ledger, block.number, es, key);
      ExpireKeepsContested(ApplyEvents(K, cfg, d.ledger, block.number, es), block.number, key);
    }
  }

  lemma SameIndexKeepsContested(l: Ledger, l': Ledger, key: string)
    requires l.Shape() && l'.Shape() && l'.challenges == l.challenges
    requires forall k :: k in l'.index ==> k in l.index && l'.index[k] == l.index[k]
    ensures KeepsContested(l, l', key)
  {
    hide ChallengeKey;
  }

  lemma ApplyKeepsContested(K: Hasher, cfg: Config, d: Da, c: Call, key: string)
    requires d.ledger.Shape() && QuietCall(d, c, key) && !c.CallReset?
    ensures KeepsContested(d.ledger, Apply(K, cfg, d, c).0.ledger, key)
  {
    hide AdvanceChallengeOrigin, ExpiredPrefix, ReorgRequired, PruneChallenges, QuietLogs, Ledger.Shape, ChallengeKey, Contested, Answered;
    match c
    case CallAdvance(block, logs, ref) =>
      AdvanceKeepsContested(K, cfg, d, block, logs, key);
      var d1 := AdvanceChallengeOrigin(K, cfg, d, block, logs).0;
      SameIndexKeepsContested(d1.ledger, Apply(K, cfg, d, c).0.ledger, key);
    case CallGetInput(comm, block, stored, next, logs) =>
      var d1 := d.(ledger := Track(cfg, d.ledger, comm, block));
      SameIndexKeepsContested(d.ledger, d1.ledger, key);
      if next.Some? {
        AdvanceKeepsContested(K, cfg, d1, next.value, logs, key);
      }
    case CallFinalize(l1) =>
      PruneChallengesKeeps(PruneCommitments(d.ledger, l1.number), l1.number);
      SameIndexKeepsContested(d.ledger, Apply(K, cfg, d, c).0.ledger, key);
  }

  lemma {:induction false} QuietAt(K: Hasher, cfg: Config, d: Da, cs: seq<Call>, key: string, n: nat)
    requires d.ledger.Shape() && QuietRun(K, cfg, d, cs, key) && n < |cs|
    ensures QuietCall(Run(K, cfg, d, cs[..n]), cs[n], key)
    decreases n
  {
    hide Apply, QuietCall;
    if n == 0 {
      RunNothing(K, cfg, d, cs);
    } else {
      QuietAt(K, cfg, Apply(K, cfg, d, cs[0]).0, cs[1..], key, n - 1);
      assert cs[..n][1..] == cs[1..][..n - 1] && cs[..n][0] == cs[0];
    }
  }

  /** From the `n`-th call on to the end. */
  lemma {:induction false} RunKeepsContested(K: Hasher, cfg: Config, d: Da, cs: seq<Call>, key: string, n: nat, m: nat)
    requires d.ledger.Shape() && QuietRun(K, cfg, d, cs, key) && NoResets(cs) && n <= m <= |cs|
    ensures KeepsContested(Run(K, cfg, d, cs[..n]).ledger, Run(K, cfg, d, cs[..m]).ledger, key)
    decreases m - n
  {
    hide Apply, Run, QuietCall, QuietRun, Contested, Answered, Ledger.Shape;
    if n < m {
      RunKeepsContested(K, cfg, d, cs, key, n, m - 1);
      QuietAt(K, cfg, d, cs, key, m - 1);
      RunNext(K, cfg, d, cs, m - 1);
      ApplyKeepsContested(K, cfg, Run(K, cfg, d, cs[..m - 1]), cs[m - 1], key);
    }
  }

  /** If a tracked commitment has a challenge against it that is not resolved, and the contract reports nothing more about
      it, then when the commitment leaves the active part, the advance that moves it asks for a reorganisation; unless
      finalization has pruned the challenge before. */
  lemma UnresolvedForcesReorg(K: Hasher, cfg: Config, d: Da, cs: seq<Call>, i: nat) returns (j: nat)
    requires Timely(cfg, d) && AllInRange(cfg, cs) && NoResets(cs)
    requires d.ledger.expiredCommitments <= i < |d.ledger.commitments| && i < Run(K, cfg, d, cs).ledger.expiredCommitments
    requires var key := KeyOf(d.ledger.commitments[i]);
             Contested(d.ledger, key) && QuietRun(K, cfg, d, cs, key) && key in Run(K, cfg, d, cs).ledger.index
    ensures j < |cs| && cs[j].CallAdvance? && Apply(K, cfg, Run(K, cfg, d, cs[..j]), cs[j]).1 == ReorgError
    ensures Moved(Run(K, cfg, d, cs[..j]).ledger, Run(K, cfg, d, cs[..j + 1]).ledger, i)
  {
    hide Run, Apply, Timely, QuietRun, Moved, Ledger.Shape, Contested, Answered, StatusOfCommitment, KeyOf;
    var key, n := KeyOf(d.ledger.commitments[i]), |cs|;
    assert cs[..n] == cs;
    RunNothing(K, cfg, d, cs);
    j := DecidedSomewhere(K, cfg, d, cs, i, n);
    RunNext(K, cfg, d, cs, j);
    RunGrows(K, cfg, d, cs, j + 1);
    RunKeepsContested(K, cfg, d, cs, key, 0, j + 1);
    RunKeepsContested(K, cfg, d, cs, key, j + 1, n);
    ContestedStatus(Run(K, cfg, d, cs[..j + 1]).ledger, d.ledger.commitments[i]);
  }

  lemma ContestedStatus(l: Ledger, c: Commitment)
    requires l.Shape() && Contested(l, KeyOf(c)) && KeyOf(c) in l.index
    ensures StatusOfCommitment(l, c) in {Active, Expired}
  {
    hide ChallengeKey;
  }

  /** If the challenge against a tracked commitment was resolved, and the contract reports nothing more about it, then the
      commitment counts for no reorganisation at any later time. */
  lemma ResolvedNeverForcesReorg(K: Hasher, cfg: Config, d: Da, cs: seq<Call>, i: nat, n: nat)
    requires d.ledger.Shape() && NoResets(cs) && i < |d.ledger.commitments| && n <= |cs|
    requires var key := KeyOf(d.ledger.commitments[i]); Answered(d.ledger, key) && QuietRun(K, cfg, d, cs, key)
    ensures var l := Run(K, cfg, d, cs[..n]).ledger;
            i < |l.commitments| && l.commitments[i] == d.ledger.commitments[i] && !l.Unresolved(l.commitments[i])
  {
    hide Run, QuietRun, Answered, Contested, KeyOf, Ledger.Shape, Ledger.Unresolved;
    RunNothing(K, cfg, d, cs);
    RunGrows(K, cfg, d, cs, n);
    RunKeepsContested(K, cfg, d, cs, KeyOf(d.ledger.commitments[i]), 0, n);
    AnsweredStatus(Run(K, cfg, d, cs[..n]).ledger, d.ledger.commitments[i]);
  }

  lemma AnsweredStatus(l: Ledger, c: Commitment)
    requires l.Shape() && Answered(l, KeyOf(c))
    ensures !l.Unresolved(c)
  {
    hide ChallengeKey;
  }
}
