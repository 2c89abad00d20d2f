/** The channel builder and channel objects, proved against the channel as a value
    (op-batcher/batcher/channel_builder.go, channel.go and tx_data.go). What the channel output and the batch
    conversion answer is a parameter of each call. */
module Channels {
  import opened Words
  import opened TxIds
  import opened ChannelSpec
  import opened ChannelLaws

  method IdOf(tx: TxData) returns (id: seq<FrameID>)
    ensures id == IdsOf(tx)
  {
    id := [];
    for i := 0 to |tx|
      invariant id == IdsOf(tx)[..i]
    {
      id := id + [tx[i].id];
    }
  }

  class ChannelBuilder {
    const cfg: ChannelConfig
    const id: ChannelID
    var timeout: uint64
    var timeoutReason: Reason
    var fullErr: Option<Reason>
    var blocks: seq<Block>
    var latestL1Origin: uint64
    var frames: seq<Frame>
    var numFrames: nat

    // every frame created so far
    ghost var produced: seq<Frame>

    // the output handed over its last frame; closing or emptying it failed
    ghost var ended: bool
    ghost var closeFailed: bool

    ghost predicate Valid()
      reads this
    {
      numFrames == |produced|
    }

    ghost function View(): Builder
      reads this
    {
      Builder(id, timeout, timeoutReason, fullErr, blocks, latestL1Origin, frames, produced, ended, closeFailed)
    }

    constructor (config: ChannelConfig, chID: ChannelID, l1Origin: uint64)
      ensures Valid() && View() == NewBuilder(config, chID, l1Origin) && cfg == config
    {
      cfg, id := config, chID;
      timeout, timeoutReason, fullErr := 0, NoReason, None;
      blocks, latestL1Origin, frames, numFrames, produced := [], 0, [], 0, [];
      ended, closeFailed := false, false;
      new;
      if cfg.maxChannelDuration != 0 {
        SetTimeout((l1Origin + cfg.maxChannelDuration) % U64, MaxDuration);
      }
    }

    method SetTimeout(deadline: uint64, reason: Reason)
      requires Valid()
      modifies this`timeout, this`timeoutReason
      ensures Valid() && View() == UpdateTimeout(old(View()), deadline, reason)
    {
      if timeout == 0 || timeout > deadline {
        timeout := deadline;
        timeoutReason := reason;
      }
    }

    predicate IsFull()
      reads this
    {
      fullErr.Some?
    }

    method AddBlock(block: Block, answer: AddAnswer) returns (r: AddResult)
      requires Valid()
      modifies this
      ensures Valid() && (View(), r) == ChannelSpec.AddBlock(cfg, old(View()), block, answer)
    {
      if IsFull() {
        return ChannelFull;
      }
      match answer {
        case BatchError => return AddFailed;
        case OutputFull =>
          fullErr := Some(OutFull);
          return ChannelFull;
        case OutputError => return AddFailed;
        case Accepted(epoch, l1Origin, nowFull) =>
          blocks := blocks + [block];
          SetTimeout((epoch + cfg.seqWindowSize - cfg.subSafetyMargin) % U64, SeqWindowClose);
          if l1Origin > latestL1Origin {
            latestL1Origin := l1Origin;
          }
          if nowFull {
            fullErr := Some(OutFull);
          }
          return Added;
      }
    }

    method FramePublished(l1Block: uint64)
      requires Valid()
      modifies this
      ensures Valid() && View() == ChannelSpec.FramePublished(cfg, old(View()), l1Block)
    {
      SetTimeout((l1Block + cfg.channelTimeout - cfg.subSafetyMargin) % U64, ChannelTimeoutClose);
    }

    method CheckTimeout(l1Block: uint64)
      requires Valid()
      modifies this
      ensures Valid() && View() == ChannelSpec.CheckTimeout(old(View()), l1Block)
    {
      if !IsFull() && timeout != 0 && l1Block >= timeout {
        fullErr := Some(timeoutReason);
      }
    }

    method OutputFrame(data: seq<byte>)
      requires Valid()
      modifies this
      ensures Valid() && View() == Emit(old(View()), data)
    {
      var fn: uint16 := numFrames % MAX_FRAMES;
      if fn == MAX_FRAMES - 1 {
        fullErr := Some(MaxFrameIndex);
      }
      var frame := Frame(data, FrameID(id, fn));
      frames := frames + [frame];
      numFrames := numFrames + 1;
      produced := produced + [frame];
    }

    method OutputReadyFrames(out: Output) returns (ok: bool)
      requires Valid()
      modifies this
      ensures Valid() && (View(), ok) == EmitAll(old(View()), out)
    {
      hide Emit;
      var o := out;
      while !o.NotReady?
        invariant Valid() && EmitAll(View(), o) == EmitAll(old(View()), out)
        decreases o
      {
        match o {
          case OutError => return false;
          case Last(data) =>
            OutputFrame(data);
            ended := true;
            return true;
          case More(data, rest) =>
            OutputFrame(data);
            o := rest;
        }
      }
      return true;
    }

    method CloseAndOutputAllFrames(closes: bool, out: Output) returns (ok: bool)
      requires Valid() && Ends(out)
      modifies this
      ensures Valid() && (View(), ok) == if closes then EmitAll(old(View()), out) else (old(View()), false)
    {
      hide Emit;
      if !closes {
        return false;
      }
      var o := out;
      while true
        invariant Valid() && Ends(o) && EmitAll(View(), o) == EmitAll(old(View()), out)
        decreases o
      {
        match o {
          case OutError => return false;
          case Last(data) =>
            OutputFrame(data);
            ended := true;
            return true;
          case More(data, rest) =>
            OutputFrame(data);
            o := rest;
        }
      }
    }

    method OutputFrames(closes: bool, out: Output) returns (ok: bool)
      requires Valid() && (IsFull() ==> Ends(out))
      modifies this
      ensures Valid() && (View(), ok) == ChannelSpec.OutputFrames(old(View()), closes, out)
    {
      hide Emit, EmitAll;
      if IsFull() {
        ok := CloseAndOutputAllFrames(closes, out);
        closeFailed := closeFailed || !ok;
        return;
      }
      ok := OutputReadyFrames(out);
    }

    method Close()
      requires Valid()
      modifies this
      ensures Valid() && View() == if old(fullErr).None? then old(View()).(full := Some(Terminated)) else old(View())
    {
      if !IsFull() {
        fullErr := Some(Terminated);
      }
    }

    /** Without a frame in the queue the source panics, so that is a precondition. */
    method NextFrame() returns (f: Frame)
      requires Valid() && |frames| > 0
      modifies this`frames
      ensures Valid() && [f] + frames == old(frames)
    {
      f := frames[0];
      frames := frames[1..];
    }

    /** A frame of another channel makes the source panic, so that is a precondition. */
    method PushFrames(fs: seq<Frame>)
      requires Valid() && forall i :: 0 <= i < |fs| ==> fs[i].id.chID == id
      modifies this`frames
      ensures Valid() && frames == old(frames) + fs
    {
      for i := 0 to |fs|
        invariant Valid() && frames == old(frames) + fs[..i]
      {
        frames := frames + [fs[i]];
      }
    }
  }

  /** `lo` and `hi` are the least and greatest of the blocks. */
  ghost predicate Extremes(blocks: map<string, uint64>, lo: uint64, hi: uint64) {
    && (exists k :: k in blocks && blocks[k] == lo)
    && (exists k :: k in blocks && blocks[k] == hi)
    && forall k :: k in blocks ==> lo <= blocks[k] <= hi
  }

  /** The inclusion blocks are up to date, unless marked otherwise. */
  ghost predicate InclusionKnown(blocks: map<string, uint64>, updated: bool, lo: uint64, hi: uint64) {
    if blocks == map[] then lo == hi else !updated ==> Extremes(blocks, lo, hi)
  }

  class Channel {
    const cfg: ChannelConfig
    const channelBuilder: ChannelBuilder
    var pendingTransactions: map<string, TxData>
    var confirmedTransactions: map<string, uint64>
    var confirmedTxUpdated: bool
    var minInclusionBlock: uint64
    var maxInclusionBlock: uint64

    // contents of the confirmed transactions
    ghost var sent: map<string, TxData>

    /** Frames are conserved, and the inclusion blocks are up to date unless marked otherwise. */
    ghost predicate Valid()
      reads this, channelBuilder
    {
      && channelBuilder.Valid() && channelBuilder.cfg == cfg && Sound(View())
      && InclusionKnown(confirmedTransactions, confirmedTxUpdated, minInclusionBlock, maxInclusionBlock)
    }

    ghost function View(): Chan
      reads this, channelBuilder
    {
      Chan(cfg, channelBuilder.View(), pendingTransactions, confirmedTransactions, sent)
    }

    constructor (config: ChannelConfig, chID: ChannelID, l1Origin: uint64)
      ensures Valid() && View() == NewChannel(config, chID, l1Origin) && fresh(channelBuilder)
    {
      NewIsSound(config, chID, l1Origin);
      cfg := config;
      channelBuilder := new ChannelBuilder(config, chID, l1Origin);
      pendingTransactions, confirmedTransactions, sent := map[], map[], map[];
      confirmedTxUpdated, minInclusionBlock, maxInclusionBlock := false, 0, 0;
    }

    method TxFailed(id: string)
      requires Valid()
      modifies this, channelBuilder
      ensures Valid() && View() == ChannelSpec.TxFailed(old(View()), id)
    {
      hide Sound;
      if id in pendingTransactions {
        ghost var c := View();
        FailedKeepsSound(c, id);
        FailedFramesBelong(c, id);
        channelBuilder.PushFrames(pendingTransactions[id]);
        pendingTransactions := pendingTransactions - {id};
      }
    }

    method UpdateInclusionBlocks()
      requires InclusionKnown(confirmedTransactions, confirmedTxUpdated, minInclusionBlock, maxInclusionBlock)
      modifies this`minInclusionBlock, this`maxInclusionBlock, this`confirmedTxUpdated
      ensures if confirmedTransactions == map[] then minInclusionBlock == maxInclusionBlock
              else !confirmedTxUpdated && Extremes(confirmedTransactions, minInclusionBlock, maxInclusionBlock)
    {
      if |confirmedTransactions| == 0 || !confirmedTxUpdated {
        return;
      }
      var min: uint64, max: uint64 := U64 - 1, 0;
      var rest := confirmedTransactions.Keys;
      while rest != {}
        invariant rest <= confirmedTransactions.Keys
        invariant forall k :: k in confirmedTransactions && k !in rest ==> min <= confirmedTransactions[k] <= max
        invariant rest == confirmedTransactions.Keys || exists k :: k in confirmedTransactions && confirmedTransactions[k] == min
        invariant rest == confirmedTransactions.Keys || exists k :: k in confirmedTransactions && confirmedTransactions[k] == max
        invariant rest == confirmedTransactions.Keys ==> min == U64 - 1 && max == 0
        decreases rest
      {
        var k :| k in rest;
        rest := rest - {k};
        if confirmedTransactions[k] < min {
          min := confirmedTransactions[k];
        }
        if confirmedTransactions[k] > max {
          max := confirmedTransactions[k];
        }
        assert k !in rest && k in confirmedTransactions;
      }
      minInclusionBlock := min;
      maxInclusionBlock := max;
      confirmedTxUpdated := false;
    }

    /** Before anything is confirmed, only a channel timeout of 0 has passed. */
    method IsTimedOut() returns (timedOut: bool)
      requires Valid()
      modifies this`minInclusionBlock, this`maxInclusionBlock, this`confirmedTxUpdated
      ensures Valid() && View() == old(View())
      ensures timedOut == if confirmedTransactions == map[] then cfg.channelTimeout == 0 else TimedOut(View())
    {
      hide Sound;
      UpdateInclusionBlocks();
      timedOut := maxInclusionBlock - minInclusionBlock >= cfg.channelTimeout;
    }

    method IsFullySubmitted() returns (done: bool)
      requires Valid()
      modifies this`minInclusionBlock, this`maxInclusionBlock, this`confirmedTxUpdated
      ensures Valid() && View() == old(View()) && done == FullySubmitted(View())
    {
      hide Sound;
      UpdateInclusionBlocks();
      done := channelBuilder.IsFull() && |pendingTransactions| + |channelBuilder.frames| == 0;
    }

    /** Moves a pending transaction to the confirmed ones. */
    method Record(id: string, block: uint64)
      requires Valid() && id in pendingTransactions
      modifies this, channelBuilder
      ensures Valid() && View() == Confirm(old(View()), id, block) && confirmedTransactions != map[]
    {
      hide Sound;
      ConfirmKeepsSound(View(), id, block);
      sent := sent[id := pendingTransactions[id]];
      pendingTransactions := pendingTransactions - {id};
      confirmedTransactions := confirmedTransactions[id := block];
      confirmedTxUpdated := true;
      channelBuilder.FramePublished(block);
      assert id in confirmedTransactions;
    }

    method TxConfirmed(id: string, block: uint64) returns (done: bool, blocks: seq<Block>)
      requires Valid()
      modifies this, channelBuilder
      ensures Valid() && (View(), done, blocks) == ChannelSpec.TxConfirmed(old(View()), id, block)
    {
      hide Sound, Confirm, TimedOut;
      if id !in pendingTransactions {
        return false, [];
      }
      Record(id, block);
      var timedOut := IsTimedOut();
      if timedOut {
        return true, channelBuilder.blocks;
      }
      done := IsFullySubmitted();
      blocks := [];
    }

    predicate NoneSubmitted()
      reads this
    {
      |confirmedTransactions| == 0 && |pendingTransactions| == 0
    }

    method HasTxData() returns (has: bool)
      requires Valid()
      ensures has == ChannelSpec.HasTxData(View())
    {
      if channelBuilder.IsFull() || !cfg.multiFrameTxs {
        return |channelBuilder.frames| > 0;
      }
      return |channelBuilder.frames| >= cfg.MaxFramesPerTx();
    }

    /** Takes frames off the queue until the transaction is large enough or the queue is empty. */
    method TakeFrames() returns (tx: TxData)
      requires channelBuilder.Valid()
      modifies channelBuilder`frames
      ensures channelBuilder.Valid() && tx == NextTx(old(View()))
      ensures channelBuilder.frames == old(channelBuilder.frames)[Batch(old(View()))..]
    {
      var nf := cfg.MaxFramesPerTx();
      tx := [];
      var i := 0;
      while i < nf && |channelBuilder.frames| > 0
        invariant channelBuilder.Valid() && 0 <= i <= nf && |tx| == i
        invariant tx + channelBuilder.frames == old(channelBuilder.frames)
      {
        var frame := channelBuilder.NextFrame();
        tx := tx + [frame];
        i := i + 1;
      }
      ghost var queue := old(channelBuilder.frames);
      assert i == Batch(old(View()));
      assert tx == queue[..i] && channelBuilder.frames == queue[i..];
    }

    method NextTxData() returns (tx: TxData)
      requires Valid() && ChannelSpec.HasTxData(View())
      modifies this, channelBuilder
      ensures Valid() && View() == TakeTx(old(View())) && tx == NextTx(old(View()))
    {
      hide Sound, TxString, InclusionKnown, Batch, ChannelSpec.HasTxData;
      ghost var c := View();
      TakeKeepsSound(c);
      tx := TakeFrames();
      var ids := IdOf(tx);
      var key := StringOf(ids);
      pendingTransactions := pendingTransactions[key := tx];
      assert View() == TakeTx(c);
    }

    method AddBlock(block: Block, answer: AddAnswer) returns (r: AddResult)
      requires Valid()
      modifies this, channelBuilder
      ensures Valid() && View() == Apply(old(View()), Add(block, answer))
      ensures r == ChannelSpec.AddBlock(cfg, old(View()).builder, block, answer).1
    {
      hide Sound, ChannelSpec.AddBlock;
      SilentKeepsSound(View(), Add(block, answer));
      r := channelBuilder.AddBlock(block, answer);
    }

    method CheckTimeout(l1Block: uint64)
      requires Valid()
      modifies this, channelBuilder
      ensures Valid() && View() == Apply(old(View()), Check(l1Block))
    {
      hide Sound;
      SilentKeepsSound(View(), Check(l1Block));
      channelBuilder.CheckTimeout(l1Block);
    }

    /** The channel output hands over fewer than 2^16 frames in all. */
    method OutputFrames(closes: bool, out: Output) returns (ok: bool)
      requires Valid() && (channelBuilder.IsFull() ==> Ends(out))
      requires |Apply(View(), Outputs(closes, out)).builder.produced| <= MAX_FRAMES
      modifies this, channelBuilder
      ensures Valid() && View() == Apply(old(View()), Outputs(closes, out))
      ensures ok == ChannelSpec.OutputFrames(old(View()).builder, closes, out).1
    {
      hide Sound, EmitAll;
      ApplyKeepsSound(View(), Outputs(closes, out));
      ok := channelBuilder.OutputFrames(closes, out);
    }
  }
}
