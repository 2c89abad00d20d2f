/** What it means for the channel manager to report a channel fully submitted: all its frames are confirmed, and they
    are the whole channel exactly if closing the channel's output did not fail. */
module SubmissionLaws {
  import opened Words
  import opened TxIds
  import opened ChannelSpec
  import opened ChannelLaws
  import opened ManagerSpec
  import opened ManagerLaws

  // ----- closing the output -----

  /** Between calls, an open channel's output has not been closed, and that of a full channel either ended or failed.
      A channel that is full because the frame numbers ran out may do neither. */
  predicate Closing(b: Builder) {
    && (b.full.None? ==> !b.ended && !b.closeFailed)
    && (b.full.Some? && b.full.value != MaxFrameIndex ==> b.ended != b.closeFailed)
  }

  /** An output that is not closed does not hand over a last frame. */
  predicate Open(out: Output) {
    match out
    case NotReady => true
    case OutError => true
    case Last(_) => false
    case More(_, rest) => Open(rest)
  }

  lemma {:induction false} EmitWhileOpen(b: Builder, out: Output)
    requires Open(out)
    ensures var b1 := EmitAll(b, out).0;
            b1.ended == b.ended && b1.closeFailed == b.closeFailed && (b1.full == b.full || b1.full == Some(MaxFrameIndex))
    decreases out
  {
    match out
    case NotReady =>
    case OutError =>
    case More(data, rest) => EmitWhileOpen(Emit(b, data), rest);
  }

  lemma {:induction false} EmitToTheEnd(b: Builder, out: Output)
    requires Ends(out) && !b.ended
    ensures var (b1, ok) := EmitAll(b, out);
            b1.ended == ok && b1.closeFailed == b.closeFailed && (b1.full == b.full || b1.full == Some(MaxFrameIndex))
    decreases out
  {
    match out
    case OutError =>
    case Last(data) =>
    case More(data, rest) => EmitToTheEnd(Emit(b, data), rest);
  }

  lemma OutputsClose(b: Builder, closes: bool, out: Output)
    requires !b.ended && !b.closeFailed && (if b.full.Some? then Ends(out) else Open(out))
    ensures Closing(OutputFrames(b, closes, out).0)
  {
    hide EmitAll;
    if b.full.Some? {
      EmitToTheEnd(b, out);
    } else {
      EmitWhileOpen(b, out);
    }
  }

  lemma {:induction false} AddBlocksOpen(cfg: ChannelConfig, b: Builder, blocks: seq<Block>, n: nat, adds: nat -> AddAnswer)
    requires n <= |blocks| && b.full.None?
    ensures var (b1, k, ok) := AddBlocks(cfg, b, blocks, n, adds);
            b1.ended == b.ended && b1.closeFailed == b.closeFailed && (!ok ==> b1.full.None?)
    decreases |blocks| - n
  {
    if n < |blocks| {
      var (b1, res) := AddBlock(cfg, b, blocks[n], adds(n));
      if res == Added && b1.full.None? {
        AddBlocksOpen(cfg, b1, blocks, n + 1, adds);
      }
    }
  }

  predicate AllClosing(m: Manager) {
    forall i :: 0 <= i < |m.channels| ==> Closing(m.channels[i].builder)
  }

  /** The flags of a channel are untouched. */
  predicate SameFlags(b: Builder, b': Builder) {
    b'.full == b.full && b'.ended == b.ended && b'.closeFailed == b.closeFailed
  }

  lemma ClosingAt(m: Manager, m': Manager, i: nat)
    requires AllClosing(m) && i < |m.channels| == |m'.channels|
    requires m'.channels == m.channels[i := m'.channels[i]] && Closing(m'.channels[i].builder)
    ensures AllClosing(m')
  {
  }

  lemma NextCloses(m: Manager, i: nat)
    requires m.Shape() && i < |m.channels| && AllClosing(m)
    ensures AllClosing(NextTxData(m, i).0)
  {
    hide TxKey, HasTxData, Batch;
  }

  lemma EnsureCloses(m: Manager, newID: Option<ChannelID>)
    requires m.Shape() && AllClosing(m)
    ensures var (m', open) := EnsureChannel(m, newID);
            AllClosing(m') && (open ==> m'.current.value < |m'.channels| && m'.channels[m'.current.value].builder.full.None?)
  {
  }

  /** One request fills, closes and empties the current channel, so the full channel is not left half done. */
  lemma BuildCloses(m: Manager, l1Head: uint64, a: Answers)
    requires m.Shape() && m.current.Some? && m.current.value < |m.channels| && AllClosing(m)
    requires m.channels[m.current.value].builder.full.None? && Open(a.ready) && Ends(a.final)
    ensures AllClosing(BuildTx(m, l1Head, a).0)
  {
    hide AddBlocks, OutputFrames, Manager.Shape, NextTxData;
    var i := m.current.value;
    var b := m.channels[i].builder;
    AddBlocksOpen(m.cfg, b, m.blocks, 0, a.adds);
    var (m1, added) := ProcessBlocks(m, a.adds);
    if !added {
      ClosingAt(m, m1, i);
    } else {
      var m2 := RegisterL1Block(m1, l1Head);
      var b2 := m2.channels[i].builder;
      OutputsClose(b2, a.closes, if b2.full.Some? then a.final else a.ready);
      var (m3, output) := CreateFrames(m2, a);
      ClosingAt(m, m3, i);
      if output {
        NextCloses(m3, i);
      }
    }
  }

  lemma RequestCloses(m: Manager, l1Head: uint64, a: Answers)
    requires m.Shape() && AllClosing(m) && Open(a.ready) && Ends(a.final)
    ensures AllClosing(RequestTx(m, l1Head, a).0)
  {
    hide NextTxData, EnsureChannel, BuildTx, Manager.Shape, FirstWithData, AllClosing;
    var first := FirstWithData(m, 0);
    if first.Some? {
      FirstInRange(m, first.value);
      NextCloses(m, first.value);
    } else if !m.closed && m.blocks != [] {
      EnsureCloses(m, a.newID);
      var (m1, open) := EnsureChannel(m, a.newID);
      if open {
        BuildCloses(m1, l1Head, a);
      }
    }
  }

  /** Failures and confirmations do not touch the flags. */
  lemma FailCloses(m: Manager, id: string)
    requires m.Shape() && AllClosing(m)
    ensures AllClosing(FailTx(m, id))
  {
    hide RemoveFirst, Manager.Shape;
    if id in m.txChannels {
      RouteInRange(m, id);
      var i := m.txChannels[id];
      assert SameFlags(m.channels[i].builder, TxFailed(m.channels[i], id).builder);
      ClosingAt(m, FailTx(m, id), i);
    }
  }

  lemma ConfirmCloses(m: Manager, id: string, block: uint64)
    requires m.Shape() && AllClosing(m)
    ensures AllClosing(ConfirmTx(m, id, block))
  {
    hide TimedOut, FullySubmitted, RemoveFirst, Manager.Shape;
    if id in m.txChannels {
      RouteInRange(m, id);
      var i := m.txChannels[id];
      assert SameFlags(m.channels[i].builder, TxConfirmed(m.channels[i], id, block).0.builder);
      ClosingAt(m, ConfirmTx(m, id, block), i);
    }
  }

  // ----- submitted channels are left alone -----

  predicate Settled(m: Manager) {
    forall i :: i in m.submitted ==> i < |m.channels| && FullySubmitted(m.channels[i]) && m.current != Some(i)
  }

  /** Only a channel that was not submitted changed. */
  predicate Changes(m: Manager, m': Manager, i: nat) {
    && m'.submitted == m.submitted && i !in m.submitted && |m.channels| <= |m'.channels|
    && (forall j :: 0 <= j < |m.channels| && j != i ==> m'.channels[j] == m.channels[j])
    && (m'.current.Some? ==> m'.current == m.current || m'.current.value !in m.submitted)
  }

  lemma ChangesSettled(m: Manager, m': Manager, i: nat)
    requires Settled(m) && Changes(m, m', i)
    ensures Settled(m')
  {
    hide FullySubmitted;
  }

  lemma NothingToTake(c: Chan)
    requires FullySubmitted(c)
    ensures !HasTxData(c)
  {
  }

  lemma NextSettled(m: Manager, i: nat)
    requires m.Shape() && i < |m.channels| && Settled(m)
    ensures Settled(NextTxData(m, i).0)
  {
    hide FullySubmitted, HasTxData, TxKey, Batch;
    var m' := NextTxData(m, i).0;
    if HasTxData(m.channels[i]) {
      if i in m.submitted {
        NothingToTake(m.channels[i]);
        assert false;
      }
      ChangesSettled(m, m', i);
    }
  }

  lemma RequestSettled(m: Manager, l1Head: uint64, a: Answers)
    requires m.Shape() && Settled(m)
    ensures Settled(RequestTx(m, l1Head, a).0)
  {
    hide NextTxData, FullySubmitted, FirstWithData, BuildTx;
    var first := FirstWithData(m, 0);
    if first.Some? {
      NextSettled(m, first.value);
    } else if !m.closed && m.blocks != [] {
      var (m1, open) := EnsureChannel(m, a.newID);
      ChangesSettled(m, m1, |m.channels|);
      if open {
        BuildSettled(m1, l1Head, a);
      }
    }
  }

  lemma BuildSettled(m: Manager, l1Head: uint64, a: Answers)
    requires m.Shape() && m.current.Some? && m.current.value < |m.channels| && Settled(m)
    ensures Settled(BuildTx(m, l1Head, a).0)
  {
    hide NextTxData, FullySubmitted, AddBlocks, OutputFrames, CheckTimeout, Manager.Shape;
    var i := m.current.value;
    var (m1, added) := ProcessBlocks(m, a.adds);
    ChangesSettled(m, m1, i);
    if added {
      var (m3, output) := CreateFrames(RegisterL1Block(m1, l1Head), a);
      ChangesSettled(m, m3, i);
      if output {
        NextSettled(m3, i);
      }
    }
  }

  /** No transaction of a submitted channel is in flight. */
  lemma NotSubmitted(m: Manager, id: string)
    requires Consistent(m) && Settled(m) && id in m.txChannels
    ensures m.txChannels[id] < |m.channels| && m.txChannels[id] !in m.submitted
  {
    hide Sound, AllSound, DistinctIds;
    var i := m.txChannels[id];
    assert id in m.channels[i].pending;
  }

  lemma FailSettled(m: Manager, id: string)
    requires Consistent(m) && Settled(m)
    ensures Settled(FailTx(m, id))
  {
    hide Consistent, FullySubmitted, RemoveFirst, TxFailed;
    if id in m.txChannels {
      NotSubmitted(m, id);
      ChangesSettled(m, FailTx(m, id), m.txChannels[id]);
    }
  }

  lemma ConfirmSettled(m: Manager, id: string, block: uint64)
    requires Consistent(m) && Settled(m)
    ensures Settled(ConfirmTx(m, id, block))
  {
    hide Consistent, FullySubmitted, RemoveFirst, TimedOut, Confirm;
    if id in m.txChannels {
      NotSubmitted(m, id);
      var i := m.txChannels[id];
      var m' := ConfirmTx(m, id, block);
      ChangesSettled(m, m'.(submitted := m.submitted), i);
    }
  }

  // ----- whole runs -----

  /** Outputs behave as outputs do: they end exactly when they are closed. */
  predicate ProperOutputs(cs: seq<Call>) {
    forall k :: 0 <= k < |cs| && cs[k].CallTxData? ==> Open(cs[k].answers.ready) && Ends(cs[k].answers.final)
  }

  lemma ServeSettles(m: Manager, c: Call)
    requires Consistent(m) && AllClosing(m) && Settled(m) && ProperOutputs([c])
    ensures AllClosing(Serve(m, c)) && Settled(Serve(m, c))
  {
    hide Consistent, RequestTx, FailTx, ConfirmTx, FullySubmitted, Closing;
    assert [c][0] == c;
    match c
    case CallAdd(block) =>
    case CallTxData(l1Head, answers) =>
      RequestCloses(m, l1Head, answers);
      RequestSettled(m, l1Head, answers);
    case CallFailed(id) =>
      FailCloses(m, id);
      FailSettled(m, id);
    case CallConfirmed(id, l1Block) =>
      ConfirmCloses(m, id, l1Block);
      ConfirmSettled(m, id, l1Block);
  }

  lemma {:induction false} RunSettles(m: Manager, cs: seq<Call>)
    requires Consistent(m) && AllClosing(m) && Settled(m) && ReasonableRun(m, cs) && ProperOutputs(cs)
    ensures var m' := ServeAll(m, cs); Consistent(m') && AllClosing(m') && Settled(m')
    decreases |cs|
  {
    hide Consistent, AllClosing, Settled, Serve, Reasonable;
    if cs != [] {
      ServeConsistent(m, cs[0]);
      ServeSettles(m, cs[0]);
      RunSettles(Serve(m, cs[0]), cs[1..]);
    }
  }

  /** Every frame the channel produced is in a confirmed transaction, and unless the frame numbers ran out, the last
      frame of its output is among them exactly if closing the output did not fail. */
  ghost predicate Delivered(c: Chan) {
    && c.builder.full.Some? && FramesIn(c.sent) == multiset(c.builder.produced) && c.sent.Keys == c.confirmed.Keys
    && (c.builder.full.value != MaxFrameIndex ==> (c.builder.ended <==> !c.builder.closeFailed))
  }

  lemma SubmittedMeansDelivered(m: Manager, i: nat)
    requires Consistent(m) && AllClosing(m) && Settled(m) && i in m.submitted
    ensures i < |m.channels| && Delivered(m.channels[i])
  {
    hide KeysMatch, Numbered;
    var c := m.channels[i];
    assert Sound(c) && Closing(c.builder);
    assert FramesIn(map[]) == multiset{};
  }

  /** The block is waiting, in a queued channel, or in a channel that was delivered. */
  ghost predicate AccountedFor(m: Manager, b: Block) {
    || b in m.blocks
    || (exists i: nat :: i in m.queue && InChannel(m, i, b))
    || (exists i: nat :: i in m.submitted && InChannel(m, i, b) && Delivered(m.channels[i]))
  }

  /** From a cleared manager on, in any order of requests, failures, confirmations, timeouts and errors, every block
      taken in is accounted for; so a block can only be missing from what was confirmed if its channel's output
      could not be closed, or ran out of frame numbers. */
  lemma EveryBlockAccountedFor(cfg: ChannelConfig, l1Origin: uint64, cs: seq<Call>, j: nat)
    requires ReasonableRun(Cleared(cfg, l1Origin), cs) && ProperOutputs(cs)
    requires j < |ServeAll(Cleared(cfg, l1Origin), cs).accepted|
    ensures var m := ServeAll(Cleared(cfg, l1Origin), cs); AccountedFor(m, m.accepted[j])
  {
    hide ServeAll, Delivered, InChannel, Sound;
    var m0 := Cleared(cfg, l1Origin);
    RunSettles(m0, cs);
    RunKeepsNoLoss(m0, cs);
    var m := ServeAll(m0, cs);
    assert Kept(m, m.accepted[j]);
    forall i: nat | i in m.submitted ensures Delivered(m.channels[i]) {
      SubmittedMeansDelivered(m, i);
    }
  }

  /** A channel whose output could not be closed is reported done all the same: a block went in, one frame came out and
      was confirmed, the output never ended. */
  lemma FailedCloseIsReportedDone(cfg: ChannelConfig, id: ChannelID, block: Block, next: Block, data: seq<byte>)
    returns (key: string)
    requires !cfg.multiFrameTxs && cfg.channelTimeout > 0
    ensures var ops := [Add(block, Accepted(0, 0, false)), Outputs(true, More(data, NotReady)), Take,
                        Add(next, OutputFull), Outputs(false, OutError)];
            var (c, done, blocks) := TxConfirmed(Run(NewChannel(cfg, id, 0), ops), key, 1);
            done && !TimedOut(c) && blocks == [] && block in c.builder.blocks && !c.builder.ended && c.builder.closeFailed
  {
    hide TxKey;
    var c0 := NewChannel(cfg, id, 0);
    var c1 := Apply(c0, Add(block, Accepted(0, 0, false)));
    var c2 := Apply(c1, Outputs(true, More(data, NotReady)));
    assert EmitAll(c1.builder, More(data, NotReady)) == EmitAll(Emit(c1.builder, data), NotReady);
    assert c1.builder.full.None? && |c2.builder.frames| == 1 && Batch(c2) == 1 && c2.builder.blocks == [block];
    var c3 := Apply(c2, Take);
    key := TxKey(NextTx(c2));
    assert c3.builder.frames == [] && c3.pending == map[key := NextTx(c2)];
    var c4 := Apply(c3, Add(next, OutputFull));
    var c5 := Apply(c4, Outputs(false, OutError));
    assert c5.builder == c3.builder.(full := Some(OutFull), closeFailed := true);
    assert c5.pending - {key} == map[];
    RunFive(c0, [Add(block, Accepted(0, 0, false)), Outputs(true, More(data, NotReady)), Take, Add(next, OutputFull),
                 Outputs(false, OutError)]);
  }

  lemma RunFrom(c: Chan, ops: seq<Op>, i: nat)
    requires i < |ops|
    ensures Run(c, ops[i..]) == Run(Apply(c, ops[i]), ops[i + 1..])
  {
    hide Apply;
    assert ops[i..][0] == ops[i] && ops[i..][1..] == ops[i + 1..];
  }

  lemma RunFive(c: Chan, ops: seq<Op>)
    requires |ops| == 5
    ensures Run(c, ops) == Apply(Apply(Apply(Apply(Apply(c, ops[0]), ops[1]), ops[2]), ops[3]), ops[4])
  {
    hide Apply, Run;
    assert ops[0..] == ops;
    var c1 := Apply(c, ops[0]);
    var c2 := Apply(c1, ops[1]);
    var c3 := Apply(c2, ops[2]);
    var c4 := Apply(c3, ops[3]);
    RunFrom(c, ops, 0);
    RunFrom(c1, ops, 1);
    RunFrom(c2, ops, 2);
    RunFrom(c3, ops, 3);
    RunFrom(c4, ops, 4);
    RunNothing(Apply(c4, ops[4]), ops);
  }

  lemma RunNothing(c: Chan, ops: seq<Op>)
    ensures Run(c, ops[|ops|..]) == c
  {
  }

  // ----- a block that is in no frame -----

  /** One channel, current and queued, that took one block, framed it and has the frame in flight. */
  predicate OneInFlight(m: Manager, block: Block, f: Frame) {
    && m.current == Some(0) && m.queue == [0] && !m.closed && m.blocks == [] && m.tip == block.hash && m.submitted == {}
    && |m.channels| == 1 && m.txChannels == map[TxKey([f]) := 0]
    && m.channels[0].cfg == m.cfg && m.channels[0].confirmed == map[] && m.channels[0].pending == map[TxKey([f]) := [f]]
    && m.channels[0].builder.full.None? && !m.channels[0].builder.closeFailed && m.channels[0].builder.frames == []
    && m.channels[0].builder.produced == [f] && m.channels[0].builder.blocks == [block]
  }

  function FirstRequest(id: ChannelID, data: seq<byte>): Call {
    CallTxData(0, Answers(Some(id), (n: nat) => Accepted(0, 0, false), true, More(data, NotReady), OutError))
  }

  /** The block fills the channel, whose output then cannot be closed. */
  function SecondRequest(): Call {
    CallTxData(0, Answers(None, (n: nat) => Accepted(0, 0, true), false, NotReady, OutError))
  }

  lemma BlockInFlight(cfg: ChannelConfig, id: ChannelID, block: Block, data: seq<byte>) returns (f: Frame)
    requires !cfg.multiFrameTxs
    ensures var m1 := AddL2Block(Cleared(cfg, 0), block).0;
            var m2 := Serve(m1, FirstRequest(id, data));
            OneInFlight(m2, block, f) && m2.cfg == cfg && m2.accepted == [block]
  {
    hide EnsureChannel, BuildTx, OneInFlight, Manager.Shape;
    var m1 := AddL2Block(Cleared(cfg, 0), block).0;
    var a := FirstRequest(id, data).answers;
    assert FirstWithData(m1, 0) == None;
    OpensOne(cfg, id, block);
    f := BuildsOne(EnsureChannel(m1, a.newID).0, id, block, data);
  }

  /** One new channel, and one block waiting for it. */
  predicate OneOpen(m: Manager, block: Block) {
    && m.current == Some(0) && m.queue == [0] && !m.closed && m.blocks == [block] && m.tip == block.hash && m.submitted == {}
    && |m.channels| == 1 && m.txChannels == map[]
    && m.channels[0].cfg == m.cfg && m.channels[0].confirmed == map[] && m.channels[0].pending == map[]
    && m.channels[0].builder.full.None? && !m.channels[0].builder.closeFailed && m.channels[0].builder.frames == []
    && m.channels[0].builder.produced == [] && m.channels[0].builder.blocks == []
  }

  lemma OpensOne(cfg: ChannelConfig, id: ChannelID, block: Block)
    ensures var (m, open) := EnsureChannel(AddL2Block(Cleared(cfg, 0), block).0, Some(id));
            open && OneOpen(m, block) && m.cfg == cfg && m.accepted == [block]
  {
  }

  lemma BuildsOne(m: Manager, id: ChannelID, block: Block, data: seq<byte>) returns (f: Frame)
    requires m.Shape() && OneOpen(m, block) && !m.cfg.multiFrameTxs
    ensures var m' := BuildTx(m, 0, FirstRequest(id, data).answers).0;
            OneInFlight(m', block, f) && m'.cfg == m.cfg && m'.accepted == m.accepted
  {
    hide TxKey, UpdateTimeout, AddBlocks, Manager.Shape;
    var a, b := FirstRequest(id, data).answers, m.channels[0].builder;
    var b1 := AddOne(m.cfg, b, block, a.adds, false);
    var m1 := ProcessBlocks(m, a.adds).0;
    assert m1.channels[0].builder == b1 && m1.blocks == [];
    var m2 := RegisterL1Block(m1, 0);
    assert m2.channels[0].builder == b1;
    assert EmitAll(b1, More(data, NotReady)) == (Emit(b1, data), true);
    f := Emit(b1, data).produced[0];
    var m3 := CreateFrames(m2, a).0;
    TakesOne(m3, f);
  }

  lemma TakesOne(m: Manager, f: Frame)
    requires m.Shape() && |m.channels| == 1 && !m.cfg.multiFrameTxs && m.channels[0].cfg == m.cfg
    requires m.channels[0].builder.frames == [f] && m.channels[0].pending == map[] && m.txChannels == map[]
    ensures var c := m.channels[0];
            NextTxData(m, 0).0 == m.(
              channels := [c.(builder := c.builder.(frames := []), pending := map[TxKey([f]) := [f]])],
              txChannels := map[TxKey([f]) := 0])
  {
    hide TxKey, Manager.Shape;
    var c := m.channels[0];
    assert Batch(c) == 1 && NextTx(c) == [f] && c.builder.frames[1..] == [];
    assert m.channels == [c] && m.channels[0 := TakeTx(c)] == [TakeTx(c)];
    assert map[][TxKey([f]) := [f]] == map[TxKey([f]) := [f]];
  }

  lemma UpdateTimeoutKeeps(b: Builder, deadline: uint64, reason: Reason)
    ensures var b' := UpdateTimeout(b, deadline, reason);
            b' == b.(timeout := b'.timeout, timeoutReason := b'.timeoutReason)
  {
  }

  /** One waiting block that the channel accepts. */
  lemma AddOne(cfg: ChannelConfig, b: Builder, block: Block, adds: nat -> AddAnswer, fills: bool) returns (b': Builder)
    requires b.full.None? && adds(0) == Accepted(0, 0, fills)
    ensures AddBlocks(cfg, b, [block], 0, adds) == (b', 1, true)
    ensures b'.blocks == b.blocks + [block] && b'.frames == b.frames && b'.produced == b.produced && b'.id == b.id
    ensures b'.full == if fills then Some(OutFull) else None
    ensures b'.ended == b.ended && b'.closeFailed == b.closeFailed
  {
    hide UpdateTimeout;
    b' := AddBlock(cfg, b, block, adds(0)).0;
    UpdateTimeoutKeeps(b.(blocks := b.blocks + [block]), (0 + cfg.seqWindowSize - cfg.subSafetyMargin) % U64, SeqWindowClose);
    if !fills {
      assert AddBlocks(cfg, b', [block], 1, adds) == (b', 1, true);
    }
  }

  lemma SecondBlockStuck(m: Manager, block: Block, next: Block, f: Frame)
    requires m.Shape() && OneInFlight(m, block, f) && next.parentHash == block.hash && !m.cfg.multiFrameTxs
    ensures var m' := Serve(AddL2Block(m, next).0, SecondRequest());
            && m'.accepted == m.accepted + [next] && m'.cfg == m.cfg && m'.blocks == [] && m'.queue == [0]
            && m'.txChannels == m.txChannels && m'.submitted == {} && |m'.channels| == 1 && m'.current == Some(0)
            && m'.channels[0].pending == m.channels[0].pending && m'.channels[0].confirmed == map[]
            && m'.channels[0].cfg == m.cfg
            && var b := m'.channels[0].builder;
               b.blocks == [block, next] && b.produced == [f] && b.frames == [] && b.full.Some? && b.closeFailed
  {
    hide TxKey, UpdateTimeout;
    var m1 := AddL2Block(m, next).0;
    var a := SecondRequest().answers;
    assert !HasTxData(m1.channels[0]);
    assert FirstWithData(m1, 1) == None;
    assert FirstWithData(m1, 0) == None;
    assert m1.blocks == [next];
    var b1 := AddOne(m.cfg, m1.channels[0].builder, next, a.adds, true);
    var m2 := ProcessBlocks(m1, a.adds).0;
    assert m2.channels[0].builder == b1 && m2.blocks == [];
  }

  lemma ConfirmLast(m: Manager, f: Frame, block: uint64)
    requires m.Shape() && |m.channels| == 1 && m.txChannels == map[TxKey([f]) := 0] && m.queue == [0]
    requires m.channels[0].pending == map[TxKey([f]) := [f]] && m.channels[0].confirmed == map[]
    requires m.channels[0].builder.full.Some? && m.channels[0].builder.frames == [] && m.channels[0].cfg.channelTimeout > 0
    ensures var m' := ConfirmTx(m, TxKey([f]), block);
            && m'.blocks == m.blocks && m'.accepted == m.accepted && m'.queue == [] && 0 in m'.submitted && |m'.channels| == 1
            && m'.channels[0].builder.blocks == m.channels[0].builder.blocks
            && m'.channels[0].builder.produced == m.channels[0].builder.produced
  {
    hide TxKey, UpdateTimeout;
    var key, c := TxKey([f]), m.channels[0];
    UpdateTimeoutKeeps(c.builder, (block + c.cfg.channelTimeout - c.cfg.subSafetyMargin) % U64, ChannelTimeoutClose);
    var c1 := Confirm(c, key, block);
    assert c1.pending == map[] && c1.confirmed == map[key := block];
    assert !TimedOut(c1) && FullySubmitted(c1);
    assert [] + m.blocks == m.blocks;
  }

  /** So a block can be dropped without ever having been in a frame: the channel it is in, reported fully submitted,
      produced its only frame before the block was taken in. */
  lemma BlockInNoFrame(cfg: ChannelConfig, id: ChannelID, block: Block, next: Block, data: seq<byte>)
    returns (key: string)
    requires !cfg.multiFrameTxs && cfg.channelTimeout > 0 && next.parentHash == block.hash
    ensures var cs := [CallAdd(block), FirstRequest(id, data), CallAdd(next), SecondRequest(), CallConfirmed(key, 1)];
            var earlier, m := ServeAll(Cleared(cfg, 0), cs[..2]), ServeAll(Cleared(cfg, 0), cs);
            && ReasonableRun(Cleared(cfg, 0), cs) && ProperOutputs(cs) && earlier.accepted == [block]
            && m.accepted == [block, next] && m.blocks == [] && m.queue == []
            && 0 in m.submitted && |m.channels| == |earlier.channels| == 1 && next in m.channels[0].builder.blocks
            && m.channels[0].builder.produced == earlier.channels[0].builder.produced
  {
    hide Serve, ServeAll, ReasonableRun, AddL2Block, ConfirmTx, OneInFlight, Reasonable, TxKey, Manager.Shape, ProperOutputs;
    var f := BlockInFlight(cfg, id, block, data);
    key := TxKey([f]);
    var m0 := Cleared(cfg, 0);
    var m1 := Serve(m0, CallAdd(block));
    var m2 := Serve(m1, FirstRequest(id, data));
    var m3 := Serve(m2, CallAdd(next));
    var m4 := Serve(m3, SecondRequest());
    AddIsServe(m0, block);
    AddIsServe(m2, next);
    SecondBlockStuck(m2, block, next, f);
    InFlightFacts(m2, block, f);
    ConfirmIsServe(m4, key, 1);
    ConfirmLast(m4, f, 1);
    RequestsAreProper(block, id, data, next, key);
    FirstIsReasonable(m0, block, id, data);
    SecondIsReasonable(m2, next);
    var cs := [CallAdd(block), FirstRequest(id, data), CallAdd(next), SecondRequest(), CallConfirmed(key, 1)];
    ServeTwo(m0, cs[..2]);
    ServeFive(m0, cs);
  }

  lemma RequestsAreProper(block: Block, id: ChannelID, data: seq<byte>, next: Block, key: string)
    ensures ProperOutputs([CallAdd(block), FirstRequest(id, data), CallAdd(next), SecondRequest(), CallConfirmed(key, 1)])
  {
    assert Open(NotReady) && Open(More(data, NotReady)) && Ends(OutError);
  }

  lemma FirstIsReasonable(m: Manager, block: Block, id: ChannelID, data: seq<byte>)
    requires m.Shape() && m.channels == []
    ensures Reasonable(Serve(m, CallAdd(block)), FirstRequest(id, data).answers)
  {
    assert Count(More(data, NotReady)) == 1 + Count(NotReady);
  }

  lemma SecondIsReasonable(m: Manager, block: Block)
    requires m.Shape() && |m.channels| == 1 && |m.channels[0].builder.produced| == 1
    ensures Reasonable(Serve(m, CallAdd(block)), SecondRequest().answers)
  {
  }

  lemma AddIsServe(m: Manager, block: Block)
    requires m.Shape()
    ensures Serve(m, CallAdd(block)) == AddL2Block(m, block).0
  {
  }

  lemma ConfirmIsServe(m: Manager, key: string, block: uint64)
    requires m.Shape()
    ensures Serve(m, CallConfirmed(key, block)) == ConfirmTx(m, key, block)
  {
  }

  lemma InFlightFacts(m: Manager, block: Block, f: Frame)
    requires OneInFlight(m, block, f)
    ensures |m.channels| == 1 && m.txChannels == map[TxKey([f]) := 0] && m.channels[0].pending == map[TxKey([f]) := [f]]
    ensures m.channels[0].builder.produced == [f]
  {
  }

  lemma ServeFrom(m: Manager, cs: seq<Call>, i: nat)
    requires m.Shape() && i < |cs|
    ensures ServeAll(m, cs[i..]) == ServeAll(Serve(m, cs[i]), cs[i + 1..])
    ensures ReasonableRun(m, cs[i..]) <==>
            (cs[i].CallTxData? ==> Reasonable(m, cs[i].answers)) && ReasonableRun(Serve(m, cs[i]), cs[i + 1..])
  {
    hide Serve, Manager.Shape, Reasonable;
    assert cs[i..][0] == cs[i] && cs[i..][1..] == cs[i + 1..];
  }

  lemma ServeNothing(m: Manager, cs: seq<Call>)
    requires m.Shape()
    ensures ServeAll(m, cs[|cs|..]) == m && ReasonableRun(m, cs[|cs|..])
  {
    hide Serve, Manager.Shape, Reasonable;
  }

  lemma ServeTwo(m: Manager, cs: seq<Call>)
    requires m.Shape() && |cs| == 2
    ensures ServeAll(m, cs) == Serve(Serve(m, cs[0]), cs[1])
  {
    hide Serve, ServeAll, ReasonableRun, Manager.Shape, Reasonable;
    assert cs[0..] == cs;
    ServeFrom(m, cs, 0);
    ServeFrom(Serve(m, cs[0]), cs, 1);
    ServeNothing(Serve(Serve(m, cs[0]), cs[1]), cs);
  }

  lemma ServeFive(m: Manager, cs: seq<Call>)
    requires m.Shape() && |cs| == 5 && !cs[0].CallTxData? && !cs[2].CallTxData? && !cs[4].CallTxData?
    requires cs[1].CallTxData? ==> Reasonable(Serve(m, cs[0]), cs[1].answers)
    requires cs[3].CallTxData? ==> Reasonable(Serve(Serve(Serve(m, cs[0]), cs[1]), cs[2]), cs[3].answers)
    ensures ServeAll(m, cs) == Serve(Serve(Serve(Serve(Serve(m, cs[0]), cs[1]), cs[2]), cs[3]), cs[4])
    ensures ReasonableRun(m, cs)
  {
    hide Serve, ServeAll, ReasonableRun, Manager.Shape, Reasonable;
    assert cs[0..] == cs;
    var m1 := Serve(m, cs[0]);
    var m2 := Serve(m1, cs[1]);
    var m3 := Serve(m2, cs[2]);
    var m4 := Serve(m3, cs[3]);
    ServeFrom(m, cs, 0);
    ServeFrom(m1, cs, 1);
    ServeFrom(m2, cs, 2);
    ServeFrom(m3, cs, 3);
    ServeFrom(m4, cs, 4);
    ServeNothing(Serve(m4, cs[4]), cs);
  }
}
