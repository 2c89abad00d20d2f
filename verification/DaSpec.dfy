/** The alt-DA manager as a step function over its ledger, and what holds of all its runs (op-plasma/damgr.go). */
module DaSpec {
  import opened Words
  import opened Merkle
  import opened Commitments
  import opened DaLedger

  datatype Da = Da(
    ledger: Ledger,
    challengeOrigin: BlockRef,
    commitmentOrigin: BlockRef,
    finalizedHead: BlockRef,
    l1FinalizedHead: BlockRef,
    resetting: bool)

  const NEW_DA := Da(EMPTY, GENESIS, GENESIS, GENESIS, GENESIS, false)

  /** The transaction behind a resolve event: not obtainable, or with the input its call data decodes to. */
  datatype ResolveTx = Missing | Tx(input: Option<seq<byte>>)

  /** A log of the challenge contract; one that does not decode as an event is skipped. */
  datatype Event = Undecodable | Event(status: byte, commitment: seq<byte>, block: uint64, tx: ResolveTx)

  /** What the storage server answers. */
  datatype Stored = Found(data: seq<byte>) | NotFound | Failed

  datatype Reply =
    | Done
    | Data(data: seq<byte>)
    | EndOfStream
    | FetchError
    | StorageError
    | ReorgError
    | ExpiredChallenge
    | PendingChallenge
    | MissingPastWindow

  // ----- challenge events -----

  function ApplyEvent(K: Hasher, cfg: Config, l: Ledger, block: uint64, e: Event): (l': Ledger)
    requires l.Shape()
    ensures l'.Shape()
  {
    if e.Undecodable? then l
    else
      match Decode(e.commitment)
      case None => l
      case Some(comm) =>
        if e.status == 1 then Create(cfg, l, comm, block, e.block)
        else if e.status == 2 && e.tx.Tx? then
          if cfg.commitmentType == GenericType then Resolve(l, comm, e.block, [])
          else if e.tx.input.Some? && comm.Verify(K, e.tx.input.value) then Resolve(l, comm, e.block, e.tx.input.value)
          else l
        else l
  }

  function ApplyEvents(K: Hasher, cfg: Config, l: Ledger, block: uint64, es: seq<Event>): (l': Ledger)
    requires l.Shape()
    ensures l'.Shape()
    decreases |es|
  {
    if es == [] then l else ApplyEvents(K, cfg, ApplyEvent(K, cfg, l, block, es[0]), block, es[1..])
  }

  /** Without a challenge contract there are no events to fetch. */
  function Fetched(cfg: Config, logs: Option<seq<Event>>): Option<seq<Event>> {
    if cfg.commitmentType == GenericType then Some([]) else logs
  }

  // ----- origins -----

  function AdvanceChallengeOrigin(K: Hasher, cfg: Config, d: Da, block: BlockRef, logs: Option<seq<Event>>): (r: (Da, Reply))
    requires d.ledger.Shape()
    ensures r.0.ledger.Shape()
  {
    if block.number <= d.challengeOrigin.number then (d, Done)
    else
      match Fetched(cfg, logs)
      case None => (d, FetchError)
      case Some(es) =>
        (d.(ledger := ExpireChallenges(ApplyEvents(K, cfg, d.ledger, block.number, es), block.number), challengeOrigin := block), Done)
  }

  function AdvanceCommitmentOrigin(d: Da, block: BlockRef): (r: (Da, Reply))
    requires d.ledger.Shape()
    ensures r.0.ledger.Shape()
  {
    if block.number <= d.commitmentOrigin.number then (d, Done)
    else
      var l := ExpireCommitments(d.ledger, block.number);
      if ReorgRequired(l, d.ledger.expiredCommitments, l.expiredCommitments)
      then (d.(ledger := l, resetting := true), ReorgError)
      else (d.(ledger := l, commitmentOrigin := block), Done)
  }

  predicate NoCommitments(l: Ledger) {
    l.pruned == |l.challenges| && l.prunedCommitments == |l.commitments|
  }

  function UpdateFinalizedFromL1(cfg: Config, d: Da, ref: Option<BlockRef>): (Da, Reply) {
    if d.l1FinalizedHead.number < cfg.challengeWindow then (d, Done)
    else if ref.None? then (d, FetchError)
    else (d.(finalizedHead := ref.value), Done)
  }

  function AdvanceL1Origin(
    K: Hasher, cfg: Config, d: Da, block: BlockRef, logs: Option<seq<Event>>, ref: Option<BlockRef>): (r: (Da, Reply))
    requires d.ledger.Shape()
    ensures r.0.ledger.Shape()
  {
    var (d1, r1) := AdvanceChallengeOrigin(K, cfg, d, block, logs);
    if r1 != Done then (d1, r1)
    else
      var (d2, r2) := AdvanceCommitmentOrigin(d1, block);
      if r2 != Done then (d2, r2)
      else if NoCommitments(d2.ledger) then UpdateFinalizedFromL1(cfg, d2, ref)
      else (d2, Done)
  }

  /** Syncs the challenges of the next block, ahead of the commitments. */
  function LookAhead(K: Hasher, cfg: Config, d: Da, next: Option<BlockRef>, logs: Option<seq<Event>>): (r: (Da, Reply))
    requires d.ledger.Shape()
    ensures r.0.ledger.Shape()
  {
    if next.None? then (d, FetchError) else AdvanceChallengeOrigin(K, cfg, d, next.value, logs)
  }

  // ----- inputs -----

  function WaitForChallenge(K: Hasher, cfg: Config, d: Da, next: Option<BlockRef>, logs: Option<seq<Event>>): (r: (Da, Reply))
    requires d.ledger.Shape()
    ensures r.0.ledger.Shape()
  {
    var (d1, r1) := LookAhead(K, cfg, d, next, logs);
    if r1 != Done then (d1, r1) else (d1, PendingChallenge)
  }

  function GetInput(
    K: Hasher, cfg: Config, d: Da, comm: CommitmentData, block: BlockRef, stored: Stored,
    next: Option<BlockRef>, logs: Option<seq<Event>>): (r: (Da, Reply))
    requires d.ledger.Shape()
    ensures r.0.ledger.Shape()
  {
    var status := d.ledger.StatusOf(comm, block.number);
    if cfg.commitmentType != comm.Type() || status == Expired then (d, ExpiredChallenge)
    else
      var d1 := d.(ledger := Track(cfg, d.ledger, comm, block));
      match stored
      case Failed => (d1, StorageError)
      case Found(data) => (d1, Data(data))
      case NotFound =>
        if status == Resolved then
          (d1, if comm.Generic? then MissingPastWindow else Data(d.ledger.Lookup(ChallengeKey(comm, block.number)).value.input))
        else if status == Uninitialized && d1.challengeOrigin.number > Add64(block.number, cfg.challengeWindow) then
          (d1, MissingPastWindow)
        else WaitForChallenge(K, cfg, d1, next, logs)
  }

  // ----- resets and finalization -----

  function Reset(d: Da, base: BlockRef): (r: Da)
    requires d.ledger.Shape()
    ensures r.ledger.Shape()
  {
    if d.resetting
    then d.(resetting := false, commitmentOrigin := base, ledger := ClearCommitments(d.ledger))
    else d.(challengeOrigin := base, commitmentOrigin := base, ledger := Clear(d.ledger))
  }

  function Finalize(d: Da, l1: BlockRef): (r: Da)
    requires d.ledger.Shape()
    ensures r.ledger.Shape()
  {
    var l := Prune(d.ledger, l1.number);
    d.(l1FinalizedHead := l1, ledger := l, finalizedHead := l.lastPruned)
  }

  // ----- runs -----

  /** A call together with everything the outside world answers during it. */
  datatype Call =
    | CallAdvance(block: BlockRef, logs: Option<seq<Event>>, ref: Option<BlockRef>)
    | CallGetInput(comm: CommitmentData, block: BlockRef, stored: Stored, next: Option<BlockRef>, logs: Option<seq<Event>>)
    | CallReset(block: BlockRef)
    | CallFinalize(block: BlockRef)

  function Apply(K: Hasher, cfg: Config, d: Da, c: Call): (r: (Da, Reply))
    requires d.ledger.Shape()
    ensures r.0.ledger.Shape()
  {
    match c
    case CallAdvance(block, logs, ref) => AdvanceL1Origin(K, cfg, d, block, logs, ref)
    case CallGetInput(comm, block, stored, next, logs) => GetInput(K, cfg, d, comm, block, stored, next, logs)
    case CallReset(base) => (Reset(d, base), EndOfStream)
    case CallFinalize(l1) => (Finalize(d, l1), Done)
  }

  function Run(K: Hasher, cfg: Config, d: Da, cs: seq<Call>): (r: Da)
    requires d.ledger.Shape()
    ensures r.ledger.Shape()
    decreases |cs|
  {
    if cs == [] then d else Run(K, cfg, Apply(K, cfg, d, cs[0]).0, cs[1..])
  }
}
