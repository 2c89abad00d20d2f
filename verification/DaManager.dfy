/** The alt-DA manager object, proved against its step function (op-plasma/damgr.go). What the outside world
    answers during a call is a parameter of the call. */
module DaManager {
  import opened Words
  import opened Merkle
  import opened Commitments
  import opened DaLedger
  import opened DaState
  import opened DaSpec

  class DA {
    const keccak: Hasher
    const cfg: Config
    const state: State

    var challengeOrigin: BlockRef
    var commitmentOrigin: BlockRef
    var finalizedHead: BlockRef
    var l1FinalizedHead: BlockRef
    var resetting: bool

    constructor (K: Hasher, config: Config)
      ensures Valid() && View() == NEW_DA && keccak == K && cfg == config
      ensures fresh(state) && state.created == []
    {
      keccak, cfg := K, config;
      state := new State(config);
      challengeOrigin, commitmentOrigin, finalizedHead, l1FinalizedHead := GENESIS, GENESIS, GENESIS, GENESIS;
      resetting := false;
    }

    ghost predicate Valid()
      reads this, state, state.created
      ensures Valid() ==> state.Valid() && state.ledger.Shape()
    {
      state.cfg == cfg && state.Valid()
    }

    ghost function View(): Da
      reads this, state
    {
      Da(state.ledger, challengeOrigin, commitmentOrigin, finalizedHead, l1FinalizedHead, resetting)
    }

    /** Only challenges this manager created are ever touched. */
    twostate predicate Frame()
      reads this, state
    {
      forall i :: 0 <= i < |state.created| ==> state.created[i] in old(state.created) || fresh(state.created[i])
    }

    // ----- challenge events -----

    method LoadEvent(block: BlockRef, e: Event)
      requires Valid()
      modifies state, state.created
      ensures Valid() && Frame() && state.ledger == ApplyEvent(keccak, cfg, old(state.ledger), block.number, e)
    {
      hide State.Valid, ChallengeKey, Create, Resolve, Decode;
      if e.Undecodable? {
        return;
      }
      var decoded := Decode(e.commitment);
      if decoded.None? {
        return;
      }
      var comm := decoded.value;
      if e.status == 2 {
        if e.tx.Missing? {
          return;
        }
        var input := [];
        if cfg.commitmentType == Keccak256Type {
          if e.tx.input.None? {
            return;
          }
          input := e.tx.input.value;
          if !comm.Verify(keccak, input) {
            return;
          }
        }
        var _ := state.ResolveChallenge(comm, e.block, input);
      } else if e.status == 1 {
        state.CreateChallenge(comm, block, e.block);
      }
    }

    method LoadChallengeEvents(block: BlockRef, logs: Option<seq<Event>>) returns (ok: bool)
      requires Valid()
      modifies state, state.created
      ensures Valid() && Frame()
      ensures ok == Fetched(cfg, logs).Some?
      ensures state.ledger == if ok then ApplyEvents(keccak, cfg, old(state.ledger), block.number, Fetched(cfg, logs).value)
                              else old(state.ledger)
    {
      hide State.Valid, ApplyEvent, Ledger.Shape;
      var fetched := Fetched(cfg, logs);
      if fetched.None? {
        return false;
      }
      var es := fetched.value;
      for i := 0 to |es|
        invariant Valid() && Frame()
        invariant ApplyEvents(keccak, cfg, state.ledger, block.number, es[i..]) == ApplyEvents(keccak, cfg, old(state.ledger), block.number, es)
      {
        assert es[i..][0] == es[i] && es[i..][1..] == es[i + 1..];
        LoadEvent(block, es[i]);
      }
      return true;
    }

    // ----- origins -----

    method AdvanceChallengeOrigin(block: BlockRef, logs: Option<seq<Event>>) returns (r: Reply)
      requires Valid()
      modifies this`challengeOrigin, state, state.created
      ensures Valid() && Frame()
      ensures (View(), r) == DaSpec.AdvanceChallengeOrigin(keccak, cfg, old(View()), block, logs)
    {
      hide State.Valid, ApplyEvents, DaLedger.ExpireChallenges, Ledger.Shape;
      if block.number <= challengeOrigin.number {
        return Done;
      }
      var ok := LoadChallengeEvents(block, logs);
      if !ok {
        return FetchError;
      }
      state.ExpireChallenges(block);
      challengeOrigin := block;
      return Done;
    }

    method AdvanceCommitmentOrigin(block: BlockRef) returns (r: Reply)
      requires Valid()
      modifies this`commitmentOrigin, this`resetting, state
      ensures Valid() && state.created == old(state.created)
      ensures (View(), r) == DaSpec.AdvanceCommitmentOrigin(old(View()), block)
    {
      hide State.Valid, DaLedger.ExpireCommitments, ReorgRequired, Ledger.Shape;
      if block.number <= commitmentOrigin.number {
        return Done;
      }
      var reorg := state.ExpireCommitments(block);
      if reorg {
        resetting := true;
        return ReorgError;
      }
      commitmentOrigin := block;
      return Done;
    }

    method UpdateFinalizedFromL1(ref: Option<BlockRef>) returns (r: Reply)
      modifies this`finalizedHead
      ensures (View(), r) == DaSpec.UpdateFinalizedFromL1(cfg, old(View()), ref)
    {
      if l1FinalizedHead.number < cfg.challengeWindow {
        return Done;
      }
      if ref.None? {
        return FetchError;
      }
      finalizedHead := ref.value;
      return Done;
    }

    method AdvanceL1Origin(block: BlockRef, logs: Option<seq<Event>>, ref: Option<BlockRef>) returns (r: Reply)
      requires Valid()
      modifies this, state, state.created
      ensures Valid() && Frame()
      ensures (View(), r) == DaSpec.AdvanceL1Origin(keccak, cfg, old(View()), block, logs, ref)
    {
      hide State.Valid, DaSpec.AdvanceChallengeOrigin, DaSpec.AdvanceCommitmentOrigin, Ledger.Shape;
      r := AdvanceChallengeOrigin(block, logs);
      if r != Done {
        return;
      }
      r := AdvanceCommitmentOrigin(block);
      if r != Done {
        return;
      }
      var none := state.NoCommitments();
      if none {
        r := UpdateFinalizedFromL1(ref);
      }
    }

    method LookAhead(next: Option<BlockRef>, logs: Option<seq<Event>>) returns (r: Reply)
      requires Valid()
      modifies this`challengeOrigin, state, state.created
      ensures Valid() && Frame()
      ensures (View(), r) == DaSpec.LookAhead(keccak, cfg, old(View()), next, logs)
    {
      hide State.Valid, DaSpec.AdvanceChallengeOrigin;
      if next.None? {
        return FetchError;
      }
      r := AdvanceChallengeOrigin(next.value, logs);
    }

    // ----- inputs -----

    method GetInput(comm: CommitmentData, block: BlockRef, stored: Stored, next: Option<BlockRef>, logs: Option<seq<Event>>)
      returns (r: Reply)
      requires Valid()
      modifies this`challengeOrigin, state, state.created
      ensures Valid() && Frame()
      ensures (View(), r) == DaSpec.GetInput(keccak, cfg, old(View()), comm, block, stored, next, logs)
    {
      hide State.Valid, DaSpec.LookAhead, ChallengeKey;
      if cfg.commitmentType != comm.Type() {
        return ExpiredChallenge;
      }
      var status := state.GetChallengeStatus(comm, block.number);
      if status == Expired {
        return ExpiredChallenge;
      }
      ghost var before := state.ledger;
      state.TrackCommitment(comm, block);
      if stored.Failed? {
        return StorageError;
      }
      if stored.NotFound? {
        match status {
          case Uninitialized =>
            if challengeOrigin.number > Add64(block.number, cfg.challengeWindow) {
              return MissingPastWindow;
            }
            r := LookAhead(next, logs);
            if r != Done {
              return;
            }
            return PendingChallenge;
          case Active =>
            r := LookAhead(next, logs);
            if r != Done {
              return;
            }
            return PendingChallenge;
          case Resolved =>
            if comm.Generic? {
              return MissingPastWindow;
            }
            assert state.ledger.Lookup(ChallengeKey(comm, block.number)) == before.Lookup(ChallengeKey(comm, block.number));
            var ch := state.GetChallenge(comm, block.number);
            return Data(ch.value.input);
        }
      }
      return Data(stored.data);
    }

    // ----- resets and finalization -----

    method Reset(base: BlockRef) returns (r: Reply)
      requires Valid()
      modifies this, state
      ensures Valid() && Frame() && r == EndOfStream
      ensures View() == DaSpec.Reset(old(View()), base)
    {
      hide State.Valid, Ledger.Shape;
      if resetting {
        resetting := false;
        commitmentOrigin := base;
        state.ClearCommitments();
      } else {
        challengeOrigin := base;
        commitmentOrigin := base;
        state.Reset();
      }
      return EndOfStream;
    }

    method Finalize(l1Finalized: BlockRef)
      requires Valid()
      modifies this, state
      ensures Valid() && state.created == old(state.created)
      ensures View() == DaSpec.Finalize(old(View()), l1Finalized)
    {
      hide State.Valid, Ledger.Shape, DaLedger.Prune;
      l1FinalizedHead := l1Finalized;
      state.Prune(l1Finalized);
      finalizedHead := LastPruned();
    }

    function LastPruned(): (b: BlockRef)
      requires Valid()
      reads this, state, state.created
      ensures b == state.ledger.lastPruned
    {
      state.lastPrunedCommitment
    }
  }
}
