/** What the operations of builder, channel and channel manager do, field by field
    (op-batcher/batcher/channel_builder.go, channel.go and channel_manager.go). */
module BatcherMeaning {
  import opened Words
  import opened TxIds
  import opened ChannelSpec
  import opened ChannelLaws
  import opened ManagerSpec
  import opened ManagerLaws

  // ----- the builder -----

  /** A deadline is registered: an earlier one, or the first, replaces what was there together with its reason. */
  predicate Registers(b: Builder, b': Builder, deadline: uint64, reason: Reason) {
    if b.timeout == 0 || deadline < b.timeout then b'.timeout == deadline && b'.timeoutReason == reason
    else b'.timeout == b.timeout && b'.timeoutReason == b.timeoutReason
  }

  /** Nothing but the deadline differs. */
  predicate OnlyDeadline(b: Builder, b': Builder) {
    b' == b.(timeout := b'.timeout, timeoutReason := b'.timeoutReason)
  }

  /** A new builder is empty; unless durations are off, it must be closed that many blocks after the L1 origin. */
  lemma NewBuilderMeans(cfg: ChannelConfig, id: ChannelID, l1Origin: uint64)
    ensures var b := NewBuilder(cfg, id, l1Origin);
            && b.id == id && b.full == None && b.blocks == [] && b.frames == [] && b.produced == [] && !b.ended && !b.closeFailed
            && (cfg.maxChannelDuration == 0 ==> b.timeout == 0)
            && (cfg.maxChannelDuration > 0 ==> b.timeout == (l1Origin + cfg.maxChannelDuration) % U64 && b.timeoutReason == MaxDuration)
  {
  }

  /** A full channel refuses. Otherwise the block is kept exactly if the output accepted it, and then the sequencing window
      sets a deadline; an output that cannot take it makes the channel full. */
  lemma AddBlockMeans(cfg: ChannelConfig, b: Builder, block: Block, answer: AddAnswer)
    ensures var (b', r) := AddBlock(cfg, b, block, answer);
            if b.full.Some? then b' == b && r == ChannelFull
            else if answer.BatchError? || answer.OutputError? then b' == b && r == AddFailed
            else if answer.OutputFull? then b' == b.(full := Some(OutFull)) && r == ChannelFull
            else
              && r == Added && b'.blocks == b.blocks + [block]
              && b'.full == (if answer.nowFull then Some(OutFull) else None)
              && b'.latestL1Origin == (if answer.l1Origin > b.latestL1Origin then answer.l1Origin else b.latestL1Origin)
              && Registers(b, b', (answer.epoch + cfg.seqWindowSize - cfg.subSafetyMargin) % U64, SeqWindowClose)
              && b'.frames == b.frames && b'.produced == b.produced
  {
  }

  /** The inclusion of a frame sets a deadline for the rest. */
  lemma FramePublishedMeans(cfg: ChannelConfig, b: Builder, block: uint64)
    ensures var b' := FramePublished(cfg, b, block);
            OnlyDeadline(b, b') && Registers(b, b', (block + cfg.channelTimeout - cfg.subSafetyMargin) % U64, ChannelTimeoutClose)
  {
  }

  /** A channel is closed once L1 reaches a deadline that was set, with the reason of that deadline. */
  lemma CheckTimeoutMeans(b: Builder, l1Block: uint64)
    ensures var b' := CheckTimeout(b, l1Block);
            && (b'.full.Some? <==> b.full.Some? || 0 < b.timeout <= l1Block)
            && b' == b.(full := if b.full.None? && b'.full.Some? then Some(b.timeoutReason) else b.full)
  {
  }

  /** The deadline that an operation registers, if any: the end of the sequencing window of an accepted block, or of the
      channel timeout after a confirmation, both less the margin. */
  function RegisteredBy(c: Chan, op: Op): seq<uint64> {
    match op
    case Add(_, answer) =>
      if c.builder.full.None? && answer.Accepted? then [(answer.epoch + c.cfg.seqWindowSize - c.cfg.subSafetyMargin) % U64] else []
    case Confirmed(id, l1Block) =>
      if id in c.pending then [(l1Block + c.cfg.channelTimeout - c.cfg.subSafetyMargin) % U64] else []
    case _ => []
  }

  function Registered(c: Chan, ops: seq<Op>): seq<uint64>
    decreases |ops|
  {
    if ops == [] then [] else RegisteredBy(c, ops[0]) + Registered(Apply(c, ops[0]), ops[1..])
  }

  /** The deadlines of a new channel: the duration, if there is a limit. */
  function FirstDeadlines(cfg: ChannelConfig, l1Origin: uint64): seq<uint64> {
    if cfg.maxChannelDuration > 0 then [(l1Origin + cfg.maxChannelDuration) % U64] else []
  }

  /** The earliest of the deadlines after the last one of 0. */
  ghost predicate IsEarliest(t: uint64, deadlines: seq<uint64>) {
    Earliest(t, 0, deadlines[SinceZero(deadlines)..])
  }

  lemma OneDeadlineMore(b: Builder, deadlines: seq<uint64>, d: uint64, reason: Reason)
    requires IsEarliest(b.timeout, deadlines)
    ensures IsEarliest(UpdateTimeout(b, d, reason).timeout, deadlines + [d])
  {
    hide UpdateTimeout, Earliest;
    var more, k := deadlines + [d], SinceZero(deadlines);
    assert more[..|deadlines|] == deadlines;
    if d == 0 {
      assert more[|more|..] == [];
      ZeroForgets(b, reason);
    } else {
      assert more[k..] == deadlines[k..] + [d];
      OneMore(b, 0, deadlines[k..], d, reason);
    }
  }

  lemma OpRegisters(c: Chan, op: Op, deadlines: seq<uint64>)
    requires IsEarliest(c.builder.timeout, deadlines)
    ensures IsEarliest(Apply(c, op).builder.timeout, deadlines + RegisteredBy(c, op))
  {
    hide IsEarliest, EmitAll, TakeTx, TimedOut, FullySubmitted, HasTxData;
    var ds := RegisteredBy(c, op);
    if ds != [] {
      OneDeadlineMore(c.builder, deadlines, ds[0], NoReason);
      assert ds == [ds[0]];
    } else {
      assert deadlines + [] == deadlines;
      if op.Outputs? {
        EmittingKeepsFull(c.builder, op.out);
      } else if op.Take? {
        TakingKeepsTimeout(c);
      }
    }
  }

  lemma TakingKeepsTimeout(c: Chan)
    ensures TakeTx(c).builder.timeout == c.builder.timeout
  {
    hide TxKey;
  }

  lemma {:induction false} RunRegisters(c: Chan, ops: seq<Op>, deadlines: seq<uint64>)
    requires IsEarliest(c.builder.timeout, deadlines)
    ensures IsEarliest(Run(c, ops).builder.timeout, deadlines + Registered(c, ops))
    decreases |ops|
  {
    hide IsEarliest, Apply, RegisteredBy;
    if ops == [] {
      assert deadlines + [] == deadlines;
    } else {
      var ds, rest := RegisteredBy(c, ops[0]), Registered(Apply(c, ops[0]), ops[1..]);
      OpRegisters(c, ops[0], deadlines);
      RunRegisters(Apply(c, ops[0]), ops[1..], deadlines + ds);
      assert (deadlines + ds) + rest == deadlines + (ds + rest);
    }
  }

  /** In every run of a channel, checking an open one at an L1 block closes it exactly if one of its deadlines has been
      reached; only a deadline that wraps around to 0 makes all before it forgotten. */
  lemma ClosesAtDeadlines(cfg: ChannelConfig, id: ChannelID, l1Origin: uint64, ops: seq<Op>, l1Block: uint64)
    ensures var start := NewChannel(cfg, id, l1Origin);
            var c, deadlines := Run(start, ops), FirstDeadlines(cfg, l1Origin) + Registered(start, ops);
            c.builder.full.None? ==>
              (Apply(c, Check(l1Block)).builder.full.Some? <==>
               exists k :: SinceZero(deadlines) <= k < |deadlines| && deadlines[k] <= l1Block)
  {
    hide Run, Registered, FirstDeadlines, NewChannel, Earliest;
    var start := NewChannel(cfg, id, l1Origin);
    StartsEarliest(cfg, id, l1Origin);
    RunRegisters(start, ops, FirstDeadlines(cfg, l1Origin));
    var deadlines := FirstDeadlines(cfg, l1Origin) + Registered(start, ops);
    EarliestIsFirstReached(Run(start, ops).builder.timeout, deadlines, SinceZero(deadlines), l1Block);
  }

  lemma StartsEarliest(cfg: ChannelConfig, id: ChannelID, l1Origin: uint64)
    ensures IsEarliest(NewChannel(cfg, id, l1Origin).builder.timeout, FirstDeadlines(cfg, l1Origin))
  {
    var ds := FirstDeadlines(cfg, l1Origin);
    if ds != [] {
      assert SinceZero(ds) == if ds[0] == 0 then 1 else 0;
      assert ds[1..] == [] && ds[0..] == ds;
    }
  }

  lemma EarliestIsFirstReached(t: uint64, deadlines: seq<uint64>, k: nat, l1Block: uint64)
    requires k <= |deadlines| && Earliest(t, 0, deadlines[k..])
    ensures 0 < t <= l1Block <==> exists i :: k <= i < |deadlines| && deadlines[i] <= l1Block
  {
    var ds := deadlines[k..];
    if 0 < t <= l1Block {
      var i :| 0 <= i < |ds| && ds[i] == t;
      assert deadlines[k + i] <= l1Block;
    }
    if i :| k <= i < |deadlines| && deadlines[i] <= l1Block {
      assert ds[i - k] == deadlines[i];
    }
  }

  /** The data of the frames an output hands over. */
  function Datas(out: Output): seq<seq<byte>> {
    match out
    case NotReady => []
    case OutError => []
    case Last(data) => [data]
    case More(data, rest) => [data] + Datas(rest)
  }

  function DatasOf(fs: seq<Frame>): seq<seq<byte>> {
    seq(|fs|, i requires 0 <= i < |fs| => fs[i].data)
  }

  /** The frames of an output join the queue in the order they were handed over, numbered on. */
  lemma {:induction false} OutputsInOrder(b: Builder, out: Output) returns (fs: seq<Frame>)
    ensures var b' := EmitAll(b, out).0;
            && b'.frames == b.frames + fs && b'.produced == b.produced + fs && DatasOf(fs) == Datas(out)
            && forall i :: 0 <= i < |fs| ==> fs[i].id == FrameID(b.id, (|b.produced| + i) % 0x1_0000)
    decreases out
  {
    match out
    case NotReady => fs := [];
    case OutError => fs := [];
    case Last(data) => fs := [FrameOf(b, data)];
    case More(data, rest) =>
      var b1, f := Emit(b, data), FrameOf(b, data);
      var more := OutputsInOrder(b1, rest);
      fs := [f] + more;
      assert b.frames + fs == b1.frames + more && b.produced + fs == b1.produced + more;
      forall i | 0 <= i < |fs| ensures fs[i].id == FrameID(b.id, (|b.produced| + i) % 0x1_0000) {
        if i > 0 { assert fs[i] == more[i - 1]; }
      }
  }

  /** The frame with the last number that fits in 16 bits makes the channel full, no other does. */
  lemma LastNumberCloses(b: Builder, data: seq<byte>)
    ensures Emit(b, data).full == if |b.produced| % 0x1_0000 == 0xFFFF then Some(MaxFrameIndex) else b.full
  {
  }

  function FrameOf(b: Builder, data: seq<byte>): Frame {
    Frame(data, FrameID(b.id, |b.produced| % 0x1_0000))
  }

  /** An open channel takes what is ready; a full one takes everything if the output can be closed, and nothing if not. */
  lemma OutputMeans(b: Builder, closes: bool, out: Output)
    ensures var (b', ok) := OutputFrames(b, closes, out);
            && (b.full.None? || closes ==> b'.produced == EmitAll(b, out).0.produced && ok == EmitAll(b, out).1)
            && (b.full.Some? && !closes ==> !ok && b' == b.(closeFailed := true))
  {
    hide EmitAll;
  }

  // ----- the channel -----

  /** Frames are sent one at a time, or up to the target number at once; then an open channel waits for enough of them. */
  lemma TxMeans(c: Chan)
    ensures var n := |c.builder.frames|;
            var limit := if c.cfg.multiFrameTxs then c.cfg.targetNumFrames else 1;
            && (HasTxData(c) <==> n > 0 && (n >= limit || c.builder.full.Some?))
            && NextTx(c) == c.builder.frames[..if n < limit then n else limit]
            && (HasTxData(c) ==>
                  var c' := TakeTx(c);
                  && NextTx(c) + c'.builder.frames == c.builder.frames
                  && c'.pending == c.pending[TxKey(NextTx(c)) := NextTx(c)] && c'.confirmed == c.confirmed)
  {
    hide TxKey;
  }

  /** A failed transaction puts its frames at the end of the queue; an unknown one changes nothing. */
  lemma FailMeans(c: Chan, id: string)
    ensures id in c.pending ==>
              var c' := TxFailed(c, id);
              c'.builder.frames == c.builder.frames + c.pending[id] && c'.pending == c.pending - {id} && c'.confirmed == c.confirmed
    ensures id !in c.pending ==> TxFailed(c, id) == c
  {
  }

  /** A confirmation is recorded with its block; the channel is done if it timed out, or is full with nothing left to
      send or to wait for. */
  lemma ConfirmMeans(c: Chan, id: string, block: uint64)
    ensures var (c', done, blocks) := TxConfirmed(c, id, block);
            if id !in c.pending then c' == c && !done && blocks == []
            else
              && c'.pending == c.pending - {id} && c'.confirmed == c.confirmed[id := block] && c'.builder.frames == c.builder.frames
              && (done <==> TimedOut(c') || (c.builder.full.Some? && c'.pending == map[] && c.builder.frames == []))
  {
    hide UpdateTimeout, TimedOut;
    PublishedOnly(c.cfg, c.builder, block);
  }

  lemma PublishedOnly(cfg: ChannelConfig, b: Builder, block: uint64)
    ensures OnlyDeadline(b, FramePublished(cfg, b, block))
  {
  }

  // ----- the manager -----

  /** The channel asked for data is the first in the queue that has some. */
  lemma {:induction false} FirstIsFirst(m: Manager, k: nat)
    requires m.Shape() && k <= |m.queue|
    ensures var r := FirstWithData(m, k);
            match r
            case None => forall j :: k <= j < |m.queue| ==> !HasTxData(m.channels[m.queue[j]])
            case Some(i) =>
              exists j :: k <= j < |m.queue| && m.queue[j] == i && HasTxData(m.channels[i]) &&
                          forall l :: k <= l < j ==> !HasTxData(m.channels[m.queue[l]])
    decreases |m.queue| - k
  {
    hide HasTxData;
    if k < |m.queue| && !HasTxData(m.channels[m.queue[k]]) {
      FirstIsFirst(m, k + 1);
    }
  }

  /** Framed data goes out before new blocks are looked at, and from the oldest channel first. */
  lemma FramedDataFirst(m: Manager, l1Head: uint64, a: Answers, j: nat)
    requires m.Shape() && j < |m.queue| && HasTxData(m.channels[m.queue[j]])
    requires forall l :: 0 <= l < j ==> !HasTxData(m.channels[m.queue[l]])
    ensures var (m', r) := RequestTx(m, l1Head, a);
            && r == Tx(NextTx(m.channels[m.queue[j]])) && m'.blocks == m.blocks && m'.queue == m.queue
            && (var key := TxKey(NextTx(m.channels[m.queue[j]])); key in m'.txChannels && m'.txChannels[key] == m.queue[j])
  {
    hide HasTxData, NextTx, TakeTx, TxKey, BuildTx, EnsureChannel;
    FirstIsFirst(m, 0);
    FirstInRange(m, m.queue[j]);
  }

  /** With no framed data, a closed manager and one without blocks have nothing to send. */
  lemma NothingToSend(m: Manager, l1Head: uint64, a: Answers)
    requires m.Shape() && (forall j :: 0 <= j < |m.queue| ==> !HasTxData(m.channels[m.queue[j]])) && (m.closed || m.blocks == [])
    ensures RequestTx(m, l1Head, a) == (m, EndOfData)
  {
    hide HasTxData, BuildTx, EnsureChannel;
    FirstIsFirst(m, 0);
  }

  /** Once a channel is full and its frames are out, later channels count their duration from its latest L1 origin. */
  lemma OriginIsNoted(m: Manager, a: Answers)
    requires m.Shape() && m.current.Some? && m.current.value < |m.channels|
    ensures var (m', ok) := CreateFrames(m, a);
            && m'.current == m.current && |m'.channels| == |m.channels|
            && (var b := m'.channels[m.current.value].builder;
                m'.l1OriginLastClosed ==
                if ok && b.full.Some? && b.latestL1Origin > m.l1OriginLastClosed then b.latestL1Origin else m.l1OriginLastClosed)
  {
    hide OutputFrames;
  }

  lemma {:induction false} EmittingKeepsFull(b: Builder, out: Output)
    ensures var b' := EmitAll(b, out).0; b'.timeout == b.timeout && (b.full.Some? ==> b'.full.Some?)
    decreases out
  {
    if out.More? {
      EmittingKeepsFull(Emit(b, out.data), out.rest);
    }
  }

  lemma CreatedKeepsFull(m: Manager, a: Answers)
    requires m.Shape() && m.current.Some?
    ensures var i := m.current.value;
            var b, b' := m.channels[i].builder, CreateFrames(m, a).0.channels[i].builder;
            b'.timeout == b.timeout && (b.full.Some? ==> b'.full.Some?)
  {
    hide EmitAll;
    var b := m.channels[m.current.value].builder;
    EmittingKeepsFull(b, if b.full.Some? then a.final else a.ready);
  }

  /** A request that frames blocks does so with the L1 head it was given: if that is at the deadline of the channel, also
      one that the blocks just added have set, the channel is closed. */
  lemma DeadlineCloses(m: Manager, l1Head: uint64, a: Answers)
    requires m.Shape() && m.current.Some?
    ensures var (m', r) := BuildTx(m, l1Head, a);
            r != TxError ==>
              && m'.current == m.current && m.current.value < |m'.channels|
              && (var b := m'.channels[m.current.value].builder; b.timeout != 0 && l1Head >= b.timeout ==> b.full.Some?)
  {
    hide ProcessBlocks, CreateFrames, HasTxData, Batch, TxKey;
    var (m1, added) := ProcessBlocks(m, a.adds);
    if added {
      CreatedKeepsFull(RegisterL1Block(m1, l1Head), a);
    }
  }

  /** A new channel is opened exactly if there is none, or the current one is full: last in the queue, empty, and with its
      duration counted from the last closed origin. */
  lemma ChannelOpens(m: Manager, id: ChannelID)
    requires m.Shape()
    ensures var (m', ok) := EnsureChannel(m, Some(id));
            var n := |m.channels|;
            && ok
            && (if m.current.Some? && m.channels[m.current.value].builder.full.None? then m' == m
                else
                  && m'.current == Some(n) && m'.queue == m.queue + [n]
                  && m'.channels == m.channels + [NewChannel(m.cfg, id, m.l1OriginLastClosed)]
                  && m'.blocks == m.blocks && m'.txChannels == m.txChannels)
  {
    hide NewChannel;
  }

  /** A failure goes to the channel of the transaction; only after closing is a channel dropped for it, if it then has
      nothing submitted. */
  lemma FailureMeans(m: Manager, id: string)
    requires m.Shape()
    ensures var m' := FailTx(m, id);
            if id !in m.txChannels then m' == m
            else
              var i := m.txChannels[id];
              && m'.channels == m.channels[i := TxFailed(m.channels[i], id)] && m'.txChannels == m.txChannels - {id}
              && m'.blocks == m.blocks
              && (var dropped := m.closed && m'.channels[i].confirmed == map[] && m'.channels[i].pending == map[];
                  && m'.queue == (if dropped then RemoveFirst(m.queue, i) else m.queue)
                  && m'.current == (if dropped && m.current == Some(i) then None else m.current))
  {
    hide TxFailed, RemoveFirst;
  }

  /** A channel that is done leaves the queue, the others stay, and it is not current any more. */
  lemma DoneChannelLeaves(m: Manager, id: string, block: uint64)
    requires m.Shape() && id in m.txChannels
    ensures var i := m.txChannels[id];
            var m', done := ConfirmTx(m, id, block), TxConfirmed(m.channels[i], id, block).1;
            && id !in m'.txChannels
            && m'.queue == (if done then RemoveFirst(m.queue, i) else m.queue)
            && m'.current == (if done && m.current == Some(i) then None else m.current)
  {
    hide TxConfirmed, RemoveFirst, TimedOut;
  }
}
