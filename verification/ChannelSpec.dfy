/** A batcher channel as a value: the builder that turns blocks into frames, and the transactions the frames travel
    in (op-batcher/batcher/channel_builder.go and channel.go). */
module ChannelSpec {
  import opened Words
  import opened Merkle
  import opened TxIds

  const U64 := 0x1_0000_0000_0000_0000
  const MAX_FRAMES := 0x1_0000

  datatype Block = Block(hash: Bytes32, parentHash: Bytes32, number: uint64)

  datatype ChannelConfig = ChannelConfig(
    seqWindowSize: uint64,
    channelTimeout: uint64,
    maxChannelDuration: uint64,
    subSafetyMargin: uint64,
    targetNumFrames: FrameCount,
    multiFrameTxs: bool)
  {
    function MaxFramesPerTx(): FrameCount {
      if !multiFrameTxs then 1 else targetNumFrames
    }
  }

  type FrameCount = x: int | x >= 1 witness 1

  datatype Reason = NoReason | OutFull | MaxFrameIndex | MaxDuration | ChannelTimeoutClose | SeqWindowClose | Terminated

  datatype Frame = Frame(data: seq<byte>, id: FrameID)

  type TxData = seq<Frame>

  function IdsOf(tx: TxData): seq<FrameID> {
    seq(|tx|, i requires 0 <= i < |tx| => tx[i].id)
  }

  function TxKey(tx: TxData): string {
    TxString(NO_CHANNEL, IdsOf(tx))
  }

  // ----- building -----

  /** `produced` remembers every frame, also those that left the queue; `ended`, that the output handed over its last
      frame; and `closeFailed`, that closing the output or emptying it after that went wrong. */
  datatype Builder = Builder(
    id: ChannelID,
    timeout: uint64,
    timeoutReason: Reason,
    full: Option<Reason>,
    blocks: seq<Block>,
    latestL1Origin: uint64,
    frames: seq<Frame>,
    produced: seq<Frame>,
    ended: bool,
    closeFailed: bool)

  /** What the batch conversion and the channel output answer when a block is added. */
  datatype AddAnswer =
    | BatchError
    | OutputFull
    | OutputError
    | Accepted(epoch: uint64, l1Origin: uint64, nowFull: bool)

  datatype AddResult = Added | ChannelFull | AddFailed

  /** The frames the channel output hands over in one round. */
  datatype Output = NotReady | OutError | Last(data: seq<byte>) | More(data: seq<byte>, rest: Output)

  /** The earlier deadline wins; 0 stands for none. */
  function UpdateTimeout(b: Builder, deadline: uint64, reason: Reason): Builder {
    if b.timeout == 0 || b.timeout > deadline then b.(timeout := deadline, timeoutReason := reason) else b
  }

  function NewBuilder(cfg: ChannelConfig, id: ChannelID, l1Origin: uint64): Builder {
    var b := Builder(id, 0, NoReason, None, [], 0, [], [], false, false);
    if cfg.maxChannelDuration == 0 then b
    else UpdateTimeout(b, (l1Origin + cfg.maxChannelDuration) % U64, MaxDuration)
  }

  function AddBlock(cfg: ChannelConfig, b: Builder, block: Block, answer: AddAnswer): (Builder, AddResult) {
    if b.full.Some? then (b, ChannelFull)
    else
      match answer
      case BatchError => (b, AddFailed)
      case OutputFull => (b.(full := Some(OutFull)), ChannelFull)
      case OutputError => (b, AddFailed)
      case Accepted(epoch, l1Origin, nowFull) =>
        var b1 := UpdateTimeout(b.(blocks := b.blocks + [block]),
                                (epoch + cfg.seqWindowSize - cfg.subSafetyMargin) % U64, SeqWindowClose);
        var b2 := if l1Origin > b1.latestL1Origin then b1.(latestL1Origin := l1Origin) else b1;
        (if nowFull then b2.(full := Some(OutFull)) else b2, Added)
  }

  function FramePublished(cfg: ChannelConfig, b: Builder, block: uint64): Builder {
    UpdateTimeout(b, (block + cfg.channelTimeout - cfg.subSafetyMargin) % U64, ChannelTimeoutClose)
  }

  function CheckTimeout(b: Builder, l1Block: uint64): Builder {
    if b.full.None? && b.timeout != 0 && l1Block >= b.timeout then b.(full := Some(b.timeoutReason)) else b
  }

  /** Frames are numbered consecutively on 16 bits. */
  function Emit(b: Builder, data: seq<byte>): Builder {
    var fn: uint16 := |b.produced| % MAX_FRAMES;
    var f := Frame(data, FrameID(b.id, fn));
    b.(frames := b.frames + [f],
       produced := b.produced + [f],
       full := if fn == MAX_FRAMES - 1 then Some(MaxFrameIndex) else b.full)
  }

  function EmitAll(b: Builder, out: Output): (Builder, bool)
    decreases out
  {
    match out
    case NotReady => (b, true)
    case OutError => (b, false)
    case Last(data) => (Emit(b, data).(ended := true), true)
    case More(data, rest) => EmitAll(Emit(b, data), rest)
  }

  /** Once the output is closed it hands over frames until the last one. */
  predicate Ends(out: Output) {
    match out
    case NotReady => false
    case OutError => true
    case Last(_) => true
    case More(_, rest) => Ends(rest)
  }

  function OutputFrames(b: Builder, closes: bool, out: Output): (Builder, bool) {
    if b.full.None? then EmitAll(b, out)
    else
      var (b1, ok) := if closes then EmitAll(b, out) else (b, false);
      (if ok then b1 else b1.(closeFailed := true), ok)
  }

  // ----- sending -----

  /** `sent` remembers the contents of the confirmed transactions. */
  datatype Chan = Chan(
    cfg: ChannelConfig,
    builder: Builder,
    pending: map<string, TxData>,
    confirmed: map<string, uint64>,
    sent: map<string, TxData>)

  function NewChannel(cfg: ChannelConfig, id: ChannelID, l1Origin: uint64): Chan {
    Chan(cfg, NewBuilder(cfg, id, l1Origin), map[], map[], map[])
  }

  predicate HasTxData(c: Chan) {
    if c.builder.full.Some? || !c.cfg.multiFrameTxs then |c.builder.frames| > 0
    else |c.builder.frames| >= c.cfg.MaxFramesPerTx()
  }

  function Batch(c: Chan): (n: nat)
    ensures n <= |c.builder.frames|
  {
    if c.cfg.MaxFramesPerTx() <= |c.builder.frames| then c.cfg.MaxFramesPerTx() else |c.builder.frames|
  }

  /** The transaction made of the first frames in the queue. */
  function NextTx(c: Chan): TxData {
    c.builder.frames[..Batch(c)]
  }

  function TakeTx(c: Chan): Chan {
    c.(builder := c.builder.(frames := c.builder.frames[Batch(c)..]), pending := c.pending[TxKey(NextTx(c)) := NextTx(c)])
  }

  function TxFailed(c: Chan, id: string): Chan {
    if id !in c.pending then c
    else c.(builder := c.builder.(frames := c.builder.frames + c.pending[id]), pending := c.pending - {id})
  }

  function Confirm(c: Chan, id: string, block: uint64): Chan
    requires id in c.pending
  {
    c.(pending := c.pending - {id}, confirmed := c.confirmed[id := block], sent := c.sent[id := c.pending[id]],
       builder := FramePublished(c.cfg, c.builder, block))
  }

  /** Two confirmed transactions are at least the channel timeout apart. */
  predicate TimedOut(c: Chan) {
    exists x, y :: x in c.confirmed && y in c.confirmed && c.confirmed[x] - c.confirmed[y] >= c.cfg.channelTimeout
  }

  predicate FullySubmitted(c: Chan) {
    c.builder.full.Some? && c.pending == map[] && c.builder.frames == []
  }

  /** The new state, whether the channel is done, and the blocks to send again. */
  function TxConfirmed(c: Chan, id: string, block: uint64): (Chan, bool, seq<Block>) {
    if id !in c.pending then (c, false, [])
    else
      var c1 := Confirm(c, id, block);
      if TimedOut(c1) then (c1, true, c1.builder.blocks)
      else (c1, FullySubmitted(c1), [])
  }

  // ----- runs of a channel -----

  datatype Op =
    | Add(block: Block, answer: AddAnswer)
    | Check(l1Block: uint64)
    | Outputs(closes: bool, out: Output)
    | Take
    | Failed(id: string)
    | Confirmed(id: string, l1Block: uint64)
    | Close

  /** Transactions are only taken when there is data for one. */
  function Apply(c: Chan, op: Op): Chan {
    match op
    case Add(block, answer) => c.(builder := AddBlock(c.cfg, c.builder, block, answer).0)
    case Check(l1Block) => c.(builder := CheckTimeout(c.builder, l1Block))
    case Outputs(closes, out) => c.(builder := OutputFrames(c.builder, closes, out).0)
    case Take => if HasTxData(c) then TakeTx(c) else c
    case Failed(id) => TxFailed(c, id)
    case Confirmed(id, l1Block) => TxConfirmed(c, id, l1Block).0
    case Close => c.(builder := if c.builder.full.None? then c.builder.(full := Some(Terminated)) else c.builder)
  }

  function Run(c: Chan, ops: seq<Op>): Chan
    decreases |ops|
  {
    if ops == [] then c else Run(Apply(c, ops[0]), ops[1..])
  }
}
