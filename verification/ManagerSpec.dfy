/** The channel manager as a value: blocks waiting for a channel, channels in the order they were opened, and the
    transactions in flight (op-batcher/batcher/channel_manager.go). */
module ManagerSpec {
  import opened Words
  import opened Merkle
  import opened TxIds
  import opened ChannelSpec

  /** `channels` holds every channel opened since the last clear, `accepted` every block taken in, and `submitted` the
      channels reported as fully submitted. */
  datatype Manager = Manager(
    cfg: ChannelConfig,
    blocks: seq<Block>,
    l1OriginLastClosed: uint64,
    tip: Bytes32,
    current: Option<nat>,
    queue: seq<nat>,
    txChannels: map<string, nat>,
    closed: bool,
    channels: seq<Chan>,
    accepted: seq<Block>,
    submitted: set<nat>)
  {
    /** Channels are referred to by their position. */
    predicate Shape() {
      && (current.Some? ==> current.value < |channels| && current.value in queue)
      && (forall k :: 0 <= k < |queue| ==> queue[k] < |channels|)
      && (forall id :: id in txChannels ==> txChannels[id] < |channels|)
      && (forall i :: i in submitted ==> i < |channels|)
      && (forall i :: 0 <= i < |channels| ==> channels[i].cfg == cfg)
    }
  }

  function Cleared(cfg: ChannelConfig, l1Origin: uint64): (m: Manager)
    ensures m.Shape()
  {
    Manager(cfg, [], l1Origin, ZERO32, None, [], map[], false, [], [], {})
  }

  /** A block must extend the last one taken in. */
  function AddL2Block(m: Manager, block: Block): (r: (Manager, bool))
    requires m.Shape()
    ensures r.0.Shape()
  {
    if m.tip != ZERO32 && m.tip != block.parentHash then (m, false)
    else (m.(blocks := m.blocks + [block], tip := block.hash, accepted := m.accepted + [block]), true)
  }

  function RemoveFirst(q: seq<nat>, i: nat): (r: seq<nat>)
    ensures forall j :: j in q && j != i ==> j in r
    ensures forall k :: 0 <= k < |r| ==> r[k] in q
  {
    if q == [] then []
    else if q[0] == i then q[1..]
    else [q[0]] + RemoveFirst(q[1..], i)
  }

  function Remove(m: Manager, i: nat): (r: Manager)
    requires m.Shape()
    ensures r.Shape()
  {
    m.(current := if m.current == Some(i) then None else m.current, queue := RemoveFirst(m.queue, i))
  }

  predicate NoneSubmitted(c: Chan) {
    c.confirmed == map[] && c.pending == map[]
  }

  /** A transaction is no longer in flight, and its channel has changed to `c`. */
  function Unrouted(m: Manager, id: string, c: Chan): (r: Manager)
    requires m.Shape() && id in m.txChannels && c.cfg == m.cfg
    ensures r.Shape()
  {
    m.(txChannels := m.txChannels - {id}, channels := m.channels[m.txChannels[id] := c])
  }

  /** A failed transaction goes back to its channel. After closing, a channel left without any is dropped. */
  function FailTx(m: Manager, id: string): (r: Manager)
    requires m.Shape()
    ensures r.Shape()
  {
    if id !in m.txChannels then m
    else
      var i := m.txChannels[id];
      var c := TxFailed(m.channels[i], id);
      var m1 := Unrouted(m, id, c);
      if m.closed && NoneSubmitted(c) then Remove(m1, i) else m1
  }

  function Reported(m: Manager, id: string, c: Chan, done: bool, bs: seq<Block>): (r: Manager)
    requires m.Shape() && id in m.txChannels && c.cfg == m.cfg
    ensures r.Shape()
  {
    Unrouted(m, id, c).(blocks := bs + m.blocks,
                        submitted := if done && !TimedOut(c) then m.submitted + {m.txChannels[id]} else m.submitted)
  }

  /** A channel that is done leaves the queue; the blocks of a timed out one come back to the front. */
  function ConfirmTx(m: Manager, id: string, block: uint64): (r: Manager)
    requires m.Shape()
    ensures r.Shape()
  {
    if id !in m.txChannels then m
    else
      var i := m.txChannels[id];
      var (c, done, bs) := TxConfirmed(m.channels[i], id, block);
      var m1 := Reported(m, id, c, done, bs);
      if done then Remove(m1, i) else m1
  }

  // ----- transaction data -----

  /** What the outside world answers while transaction data is requested. */
  datatype Answers = Answers(newID: Option<ChannelID>, adds: nat -> AddAnswer, closes: bool, ready: Output, final: Output)

  datatype TxResult = Tx(tx: TxData) | EndOfData | TxError

  function FirstWithData(m: Manager, k: nat): (r: Option<nat>)
    requires m.Shape() && k <= |m.queue|
    ensures r.Some? ==> r.value in m.queue && HasTxData(m.channels[r.value])
    ensures r.None? ==> forall j :: k <= j < |m.queue| ==> !HasTxData(m.channels[m.queue[j]])
    decreases |m.queue| - k
  {
    if k == |m.queue| then None
    else if HasTxData(m.channels[m.queue[k]]) then Some(m.queue[k])
    else FirstWithData(m, k + 1)
  }

  function NextTxData(m: Manager, i: nat): (r: (Manager, TxResult))
    requires m.Shape() && i < |m.channels|
    ensures r.0.Shape()
  {
    var c := m.channels[i];
    if !HasTxData(c) then (m, EndOfData)
    else (m.(channels := m.channels[i := TakeTx(c)], txChannels := m.txChannels[TxKey(NextTx(c)) := i]), Tx(NextTx(c)))
  }

  /** A new channel becomes the current one, at the end of the queue. */
  function Opened(m: Manager, id: ChannelID): (r: Manager)
    requires m.Shape()
    ensures r.Shape() && r.current == Some(|m.channels|)
  {
    var i := |m.channels|;
    m.(channels := m.channels + [NewChannel(m.cfg, id, m.l1OriginLastClosed)], current := Some(i), queue := m.queue + [i])
  }

  /** A channel with space, opened if need be. */
  function EnsureChannel(m: Manager, newID: Option<ChannelID>): (r: (Manager, bool))
    requires m.Shape()
    ensures r.0.Shape() && (r.1 ==> r.0.current.Some?)
  {
    if m.current.Some? && m.channels[m.current.value].builder.full.None? then (m, true)
    else if newID.None? then (m, false)
    else (Opened(m, newID.value), true)
  }

  /** Adds blocks from the n-th on, until the channel is full, one fails or none is left. Returns how many the channel
      now holds and whether all went well. */
  function AddBlocks(cfg: ChannelConfig, b: Builder, blocks: seq<Block>, n: nat, adds: nat -> AddAnswer): (r: (Builder, nat, bool))
    requires n <= |blocks|
    ensures n <= r.1 <= |blocks|
    ensures r.0.blocks == b.blocks + blocks[n..r.1]
    ensures r.0.produced == b.produced && r.0.frames == b.frames && r.0.id == b.id
    decreases |blocks| - n
  {
    if n == |blocks| then (b, n, true)
    else
      var (b1, res) := AddBlock(cfg, b, blocks[n], adds(n));
      match res
      case ChannelFull => (b1, n, true)
      case AddFailed => (b1, n, false)
      case Added => if b1.full.Some? then (b1, n + 1, true) else AddBlocks(cfg, b1, blocks, n + 1, adds)
  }

  function SetBuilder(m: Manager, i: nat, b: Builder): (r: Manager)
    requires m.Shape() && i < |m.channels|
    ensures r.Shape()
  {
    m.(channels := m.channels[i := m.channels[i].(builder := b)])
  }

  /** Blocks leave the manager only if none failed. */
  function ProcessBlocks(m: Manager, adds: nat -> AddAnswer): (r: (Manager, bool))
    requires m.Shape() && m.current.Some?
    ensures r.0.Shape() && r.0.current == m.current
  {
    var i := m.current.value;
    var (b, n, ok) := AddBlocks(m.cfg, m.channels[i].builder, m.blocks, 0, adds);
    var m1 := SetBuilder(m, i, b);
    if !ok then (m1, false) else (m1.(blocks := m.blocks[n..]), true)
  }

  function RegisterL1Block(m: Manager, l1Head: uint64): (r: Manager)
    requires m.Shape() && m.current.Some?
    ensures r.Shape() && r.current == m.current
  {
    var i := m.current.value;
    SetBuilder(m, i, CheckTimeout(m.channels[i].builder, l1Head))
  }

  function CreateFrames(m: Manager, a: Answers): (r: (Manager, bool))
    requires m.Shape() && m.current.Some?
    ensures r.0.Shape() && r.0.current == m.current
  {
    var i := m.current.value;
    var b := m.channels[i].builder;
    var (b1, ok) := OutputFrames(b, a.closes, if b.full.Some? then a.final else a.ready);
    var m1 := SetBuilder(m, i, b1);
    if !ok then (m1, false)
    else if b1.full.Some? && b1.latestL1Origin > m.l1OriginLastClosed then (m1.(l1OriginLastClosed := b1.latestL1Origin), true)
    else (m1, true)
  }

  function BuildTx(m: Manager, l1Head: uint64, a: Answers): (r: (Manager, TxResult))
    requires m.Shape() && m.current.Some?
    ensures r.0.Shape()
  {
    var (m1, added) := ProcessBlocks(m, a.adds);
    if !added then (m1, TxError)
    else
      var (m2, output) := CreateFrames(RegisterL1Block(m1, l1Head), a);
      if !output then (m2, TxError) else NextTxData(m2, m2.current.value)
  }

  /** Data already framed goes first; otherwise waiting blocks are put into a channel. */
  function RequestTx(m: Manager, l1Head: uint64, a: Answers): (r: (Manager, TxResult))
    requires m.Shape()
    ensures r.0.Shape()
  {
    var first := FirstWithData(m, 0);
    if first.Some? then NextTxData(m, first.value)
    else if m.closed || m.blocks == [] then (m, EndOfData)
    else
      var (m1, open) := EnsureChannel(m, a.newID);
      if !open then (m1, TxError) else BuildTx(m1, l1Head, a)
  }

  // ----- runs -----

  datatype Call =
    | CallAdd(block: Block)
    | CallTxData(l1Head: uint64, answers: Answers)
    | CallFailed(id: string)
    | CallConfirmed(id: string, l1Block: uint64)

  function Serve(m: Manager, c: Call): (r: Manager)
    requires m.Shape()
    ensures r.Shape()
  {
    match c
    case CallAdd(block) => AddL2Block(m, block).0
    case CallTxData(l1Head, answers) => RequestTx(m, l1Head, answers).0
    case CallFailed(id) => FailTx(m, id)
    case CallConfirmed(id, l1Block) => ConfirmTx(m, id, l1Block)
  }

  function ServeAll(m: Manager, cs: seq<Call>): (r: Manager)
    requires m.Shape()
    ensures r.Shape()
    decreases |cs|
  {
    if cs == [] then m else ServeAll(Serve(m, cs[0]), cs[1..])
  }
}
