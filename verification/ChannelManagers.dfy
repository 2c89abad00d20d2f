/** The channel manager object, proved against the manager as a value (op-batcher/batcher/channel_manager.go). */
module ChannelManagers {
  import opened Words
  import opened Merkle
  import opened TxIds
  import opened ChannelSpec
  import opened ChannelLaws
  import opened Channels
  import opened ManagerSpec
  import opened ManagerLaws

  /** The objects `cs` are the channels numbered `ids`. */
  ghost predicate Names(cs: seq<Channel>, ids: seq<nat>, created: seq<Channel>) {
    |cs| == |ids| && forall k :: 0 <= k < |cs| ==> ids[k] < |created| && cs[k] == created[ids[k]]
  }

  ghost predicate Indexes(txs: map<string, Channel>, ids: map<string, nat>, created: seq<Channel>) {
    txs.Keys == ids.Keys && forall id :: id in txs ==> ids[id] < |created| && txs[id] == created[ids[id]]
  }

  ghost predicate Refers(c: Channel?, i: Option<nat>, created: seq<Channel>) {
    if i.None? then c == null else i.value < |created| && c == created[i.value]
  }

  /** All channels are different objects, with their builders. */
  ghost predicate Distinct(created: seq<Channel>, builders: seq<ChannelBuilder>) {
    && |builders| == |created|
    && (forall i :: 0 <= i < |created| ==> created[i].channelBuilder == builders[i])
    && (forall i, j :: 0 <= i < j < |created| ==> created[i] != created[j] && builders[i] != builders[j])
  }

  /** Every channel has its value. */
  ghost predicate Linked(created: seq<Channel>, builders: seq<ChannelBuilder>, values: seq<Chan>)
    reads created, builders
  {
    && Distinct(created, builders) && |created| == |values|
    && forall i :: 0 <= i < |created| ==> created[i].Valid() && created[i].View() == values[i]
  }

  // ----- calls on one channel leave the others alone -----

  method FailIn(channel: Channel, id: string, ghost created: seq<Channel>, ghost builders: seq<ChannelBuilder>, ghost values: seq<Chan>, ghost i: nat)
    requires Linked(created, builders, values) && i < |created| && created[i] == channel
    modifies channel, channel.channelBuilder
    ensures Linked(created, builders, values[i := ChannelSpec.TxFailed(values[i], id)])
  {
    hide Channel.Valid, Channel.View, ChannelSpec.TxFailed;
    channel.TxFailed(id);
  }

  method ConfirmIn(channel: Channel, id: string, block: uint64,
                   ghost created: seq<Channel>, ghost builders: seq<ChannelBuilder>, ghost values: seq<Chan>, ghost i: nat)
    returns (done: bool, bs: seq<Block>)
    requires Linked(created, builders, values) && i < |created| && created[i] == channel
    modifies channel, channel.channelBuilder
    ensures var (c, d, b) := ChannelSpec.TxConfirmed(values[i], id, block);
            Linked(created, builders, values[i := c]) && done == d && bs == b
  {
    hide Channel.Valid, Channel.View, ChannelSpec.TxConfirmed;
    done, bs := channel.TxConfirmed(id, block);
  }

  method TakeFrom(channel: Channel, ghost created: seq<Channel>, ghost builders: seq<ChannelBuilder>, ghost values: seq<Chan>, ghost i: nat)
    returns (tx: TxData)
    requires Linked(created, builders, values) && i < |created| && created[i] == channel && HasTxData(values[i])
    modifies channel, channel.channelBuilder
    ensures Linked(created, builders, values[i := TakeTx(values[i])]) && tx == NextTx(values[i])
  {
    hide Channel.Valid, Channel.View, TakeTx, NextTx, HasTxData;
    tx := channel.NextTxData();
  }

  method AddTo(channel: Channel, block: Block, answer: AddAnswer,
               ghost created: seq<Channel>, ghost builders: seq<ChannelBuilder>, ghost values: seq<Chan>, ghost i: nat)
    returns (r: AddResult)
    requires Linked(created, builders, values) && i < |created| && created[i] == channel
    modifies channel, channel.channelBuilder
    ensures var (b, res) := AddBlock(channel.cfg, values[i].builder, block, answer);
            Linked(created, builders, values[i := values[i].(builder := b)]) && r == res
  {
    hide Channel.Valid, AddBlock;
    r := channel.AddBlock(block, answer);
  }

  method CheckIn(channel: Channel, l1Block: uint64,
                 ghost created: seq<Channel>, ghost builders: seq<ChannelBuilder>, ghost values: seq<Chan>, ghost i: nat)
    requires Linked(created, builders, values) && i < |created| && created[i] == channel
    modifies channel, channel.channelBuilder
    ensures Linked(created, builders, values[i := values[i].(builder := CheckTimeout(values[i].builder, l1Block))])
  {
    hide Channel.Valid, CheckTimeout;
    channel.CheckTimeout(l1Block);
  }

  method OutputIn(channel: Channel, closes: bool, out: Output,
                  ghost created: seq<Channel>, ghost builders: seq<ChannelBuilder>, ghost values: seq<Chan>, ghost i: nat)
    returns (ok: bool)
    requires Linked(created, builders, values) && i < |created| && created[i] == channel
    requires values[i].builder.full.Some? ==> Ends(out)
    requires |OutputFrames(values[i].builder, closes, out).0.produced| <= MAX_FRAMES
    modifies channel, channel.channelBuilder
    ensures var (b, done) := OutputFrames(values[i].builder, closes, out);
            Linked(created, builders, values[i := values[i].(builder := b)]) && ok == done
  {
    hide Channel.Valid, OutputFrames;
    ok := channel.OutputFrames(closes, out);
  }

  // ----- lists and maps of channels -----

  lemma NamesWithout(cs: seq<Channel>, ids: seq<nat>, created: seq<Channel>, k: nat)
    requires Names(cs, ids, created) && k < |cs|
    ensures Names(cs[..k] + cs[k + 1..], ids[..k] + ids[k + 1..], created)
  {
  }

  lemma NamesWith(cs: seq<Channel>, ids: seq<nat>, created: seq<Channel>, c: Channel)
    requires Names(cs, ids, created)
    ensures Names(cs + [c], ids + [|created|], created + [c])
  {
  }

  lemma IndexesWithout(txs: map<string, Channel>, ids: map<string, nat>, created: seq<Channel>, id: string)
    requires Indexes(txs, ids, created)
    ensures Indexes(txs - {id}, ids - {id}, created)
  {
  }

  lemma IndexesWith(txs: map<string, Channel>, ids: map<string, nat>, created: seq<Channel>, id: string, i: nat)
    requires Indexes(txs, ids, created) && i < |created|
    ensures Indexes(txs[id := created[i]], ids[id := i], created)
  {
  }

  lemma IndexesGrow(txs: map<string, Channel>, ids: map<string, nat>, created: seq<Channel>, c: Channel)
    requires Indexes(txs, ids, created)
    ensures Indexes(txs, ids, created + [c])
  {
  }

  /** The objects are told apart like the numbers. */
  lemma SameObject(created: seq<Channel>, builders: seq<ChannelBuilder>, i: nat, j: nat)
    requires Distinct(created, builders) && i < |created| && j < |created|
    ensures created[i] == created[j] <==> i == j
  {
  }

  class ChannelManager {
    const cfg: ChannelConfig
    var blocks: seq<Block>
    var l1OriginLastClosedChannel: uint64
    var tip: Bytes32
    var currentChannel: Channel?
    var channelQueue: seq<Channel>
    var txChannels: map<string, Channel>
    var closed: bool

    // the manager as a value, and the channel objects it is about
    ghost var m: Manager
    ghost var created: seq<Channel>
    ghost var builders: seq<ChannelBuilder>

    ghost predicate Matches()
      reads this
      ensures Matches() ==> m.Shape()
    {
      && m.Shape() && |created| == |m.channels|
      && m.cfg == cfg && m.blocks == blocks && m.l1OriginLastClosed == l1OriginLastClosedChannel && m.tip == tip && m.closed == closed
      && Refers(currentChannel, m.current, created) && Names(channelQueue, m.queue, created) && Indexes(txChannels, m.txChannels, created)
    }

    ghost predicate Valid()
      reads this, created, builders
    {
      Matches() && Linked(created, builders, m.channels)
    }

    constructor (config: ChannelConfig)
      ensures Valid() && m == Cleared(config, 0) && cfg == config && created == [] && builders == []
    {
      cfg := config;
      blocks, l1OriginLastClosedChannel, tip := [], 0, ZERO32;
      currentChannel, channelQueue, txChannels, closed := null, [], map[], false;
      m, created, builders := Cleared(config, 0), [], [];
    }

    method Clear(l1Origin: uint64)
      modifies this
      ensures Valid() && m == Cleared(cfg, l1Origin) && created == [] && builders == []
    {
      blocks := [];
      l1OriginLastClosedChannel := l1Origin;
      tip := ZERO32;
      closed := false;
      currentChannel := null;
      channelQueue := [];
      txChannels := map[];
      m, created, builders := Cleared(cfg, l1Origin), [], [];
    }

    method AddL2Block(block: Block) returns (ok: bool)
      requires Valid()
      modifies this
      ensures Valid() && created == old(created) && builders == old(builders) && (m, ok) == ManagerSpec.AddL2Block(old(m), block)
    {
      hide Channel.Valid, Names, Indexes, Refers, Distinct, Manager.Shape;
      if tip != ZERO32 && tip != block.parentHash {
        return false;
      }
      blocks := blocks + [block];
      tip := block.hash;
      m := ManagerSpec.AddL2Block(m, block).0;
      return true;
    }

    /** The position of a channel in the queue, or the length of the queue. */
    method Find(channel: Channel, ghost i: nat) returns (index: nat)
      requires Names(channelQueue, m.queue, created) && Distinct(created, builders) && i < |created| && created[i] == channel
      ensures index <= |channelQueue| && |m.queue| == |channelQueue|
      ensures RemoveFirst(m.queue, i) == if index < |m.queue| then m.queue[..index] + m.queue[index + 1..] else m.queue
    {
      index := 0;
      while index < |channelQueue| && channelQueue[index] != channel
        invariant 0 <= index <= |channelQueue|
        invariant forall k :: 0 <= k < index ==> m.queue[k] != i
      {
        SameObject(created, builders, m.queue[index], i);
        index := index + 1;
      }
      if index < |channelQueue| {
        SameObject(created, builders, m.queue[index], i);
      }
      RemoveAt(m.queue, i, index);
    }

    /** Drops a channel from the queue. */
    method RemovePendingChannel(channel: Channel, ghost i: nat)
      requires Matches() && Distinct(created, builders) && i < |created| && created[i] == channel
      modifies this`currentChannel, this`channelQueue, this`m
      ensures Matches() && m == Remove(old(m), i)
    {
      hide Manager.Shape, Names, Indexes, Distinct, RemoveFirst;
      if m.current.Some? {
        SameObject(created, builders, m.current.value, i);
      }
      if currentChannel == channel {
        currentChannel := null;
      }
      var index := Find(channel, i);
      if index < |channelQueue| {
        NamesWithout(channelQueue, m.queue, created, index);
        channelQueue := channelQueue[..index] + channelQueue[index + 1..];
      }
      m := Remove(m, i);
    }

    /** The channel of a transaction in flight. */
    ghost function RouteOf(id: string): (i: nat)
      reads this
      requires Matches() && id in txChannels
      ensures i < |created| && i < |m.channels| && txChannels[id] == created[i] && id in m.txChannels && m.txChannels[id] == i
    {
      m.txChannels[id]
    }

    /** What is known of one channel. */
    lemma ChannelAt(i: nat)
      requires Valid() && i < |created|
      ensures Distinct(created, builders) && |builders| == |created| == |m.channels| && created[i].channelBuilder == builders[i]
      ensures created[i].Valid() && created[i].View() == m.channels[i] && m.channels[i].cfg == cfg
    {
      hide Channel.Valid, Channel.View;
    }

    method TxFailed(id: string)
      requires Valid()
      modifies this, created, builders
      ensures Valid() && created == old(created) && builders == old(builders) && m == FailTx(old(m), id)
    {
      hide Channel.Valid, Sound, Manager.Shape, Names, Indexes, Refers, Distinct, Linked, RemoveFirst;
      if id in txChannels {
        ghost var i := RouteOf(id);
        ChannelAt(i);
        IndexesWithout(txChannels, m.txChannels, created, id);
        var channel := txChannels[id];
        txChannels := txChannels - {id};
        FailIn(channel, id, created, builders, m.channels, i);
        m := Unrouted(m, id, ChannelSpec.TxFailed(m.channels[i], id));
        ChannelAt(i);
        if closed && channel.NoneSubmitted() {
          RemovePendingChannel(channel, i);
        }
      } else {
        NotInFlight(id);
      }
    }

    lemma NotInFlight(id: string)
      requires Matches() && id !in txChannels
      ensures id !in m.txChannels
    {
    }

    /** Hands a confirmation to the channel of the transaction and takes back its blocks. */
    method Report(id: string, inclusionBlock: uint64) returns (channel: Channel, done: bool, ghost i: nat)
      requires Valid() && id in txChannels
      modifies this, created, builders
      ensures Valid() && created == old(created) && builders == old(builders)
      ensures i < |created| && created[i] == channel && id in old(m).txChannels && old(m).txChannels[id] == i < |old(m).channels|
      ensures var (c, d, bs) := ChannelSpec.TxConfirmed(old(m).channels[i], id, inclusionBlock);
              d == done && c.cfg == old(m).cfg && m == Reported(old(m), id, c, d, bs)
    {
      hide Channel.Valid, Sound, Manager.Shape, Names, Indexes, Refers, Distinct, Linked, TimedOut, FullySubmitted;
      i := RouteOf(id);
      ChannelAt(i);
      IndexesWithout(txChannels, m.txChannels, created, id);
      channel := txChannels[id];
      txChannels := txChannels - {id};
      var bs;
      done, bs := ConfirmIn(channel, id, inclusionBlock, created, builders, m.channels, i);
      blocks := bs + blocks;
      m := Reported(m, id, ChannelSpec.TxConfirmed(m.channels[i], id, inclusionBlock).0, done, bs);
    }

    method TxConfirmed(id: string, inclusionBlock: uint64)
      requires Valid()
      modifies this, created, builders
      ensures Valid() && created == old(created) && builders == old(builders) && m == ConfirmTx(old(m), id, inclusionBlock)
    {
      hide Channel.Valid, Sound, Manager.Shape, Names, Indexes, Refers, Distinct, Linked, Reported, ChannelSpec.TxConfirmed, RemoveFirst;
      if id in txChannels {
        var channel, done;
        ghost var i;
        channel, done, i := Report(id, inclusionBlock);
        ChannelAt(i);
        if done {
          RemovePendingChannel(channel, i);
        }
      } else {
        NotInFlight(id);
      }
    }

    // ----- transaction data -----

    method NextTxData(channel: Channel, ghost i: nat) returns (r: TxResult)
      requires Valid() && i < |created| && created[i] == channel && i < |m.channels|
      modifies this, channel, channel.channelBuilder
      ensures Valid() && created == old(created) && builders == old(builders)
      ensures (m, r) == ManagerSpec.NextTxData(old(m), i)
    {
      hide Channel.Valid, Sound, Manager.Shape, Names, Indexes, Refers, Distinct, Linked, HasTxData, NextTx, TakeTx, TxString, IdsOf;
      ChannelAt(i);
      var has := channel.HasTxData();
      if !has {
        return EndOfData;
      }
      var tx := TakeFrom(channel, created, builders, m.channels, i);
      var ids := IdOf(tx);
      var key := StringOf(ids);
      IndexesWith(txChannels, m.txChannels, created, key, i);
      txChannels := txChannels[key := channel];
      m := ManagerSpec.NextTxData(m, i).0;
      return Tx(tx);
    }

    /** The first channel in the queue that has data. */
    method FindWithData() returns (channel: Channel?, ghost i: nat)
      requires Valid()
      ensures channel == null <==> FirstWithData(m, 0).None?
      ensures channel != null ==> i < |created| == |m.channels| && created[i] == channel && FirstWithData(m, 0) == Some(i)
    {
      hide Channel.Valid, Sound, Manager.Shape, Indexes, Refers, Distinct, Linked, HasTxData;
      var k := 0;
      i := 0;
      while k < |channelQueue|
        invariant 0 <= k <= |channelQueue| && FirstWithData(m, k) == FirstWithData(m, 0)
      {
        i := m.queue[k];
        ChannelAt(i);
        var has := channelQueue[k].HasTxData();
        if has {
          return channelQueue[k], i;
        }
        k := k + 1;
      }
      return null, i;
    }

    /** One more channel object at the end. */
    twostate predicate Grown()
      reads this
    {
      && |created| == |old(created)| + 1 && |builders| == |old(builders)| + 1
      && created[..|old(created)|] == old(created) && builders[..|old(builders)|] == old(builders)
      && fresh(created[|old(created)|]) && fresh(builders[|old(builders)|])
    }

    method OpenChannel(id: ChannelID)
      requires Valid()
      modifies this
      ensures Valid() && m == Opened(old(m), id) && Grown()
    {
      hide Channel.Valid, Sound, Manager.Shape, Names, Indexes, Distinct, Linked, NewChannel;
      var pc := new Channel(cfg, id, l1OriginLastClosedChannel);
      NewLinked(created, builders, m.channels, pc);
      NamesWith(channelQueue, m.queue, created, pc);
      IndexesGrow(txChannels, m.txChannels, created, pc);
      currentChannel := pc;
      channelQueue := channelQueue + [pc];
      created, builders := created + [pc], builders + [pc.channelBuilder];
      m := Opened(m, id);
    }

    method EnsureChannelWithSpace(newID: Option<ChannelID>) returns (ok: bool)
      requires Valid()
      modifies this
      ensures Valid() && (m, ok) == EnsureChannel(old(m), newID)
      ensures (created == old(created) && builders == old(builders)) || Grown()
    {
      hide Channel.Valid, Sound, Manager.Shape, Names, Indexes, Distinct, Linked, Opened;
      if currentChannel != null {
        ChannelAt(m.current.value);
        if !currentChannel.channelBuilder.IsFull() {
          return true;
        }
      }
      if newID.None? {
        return false;
      }
      OpenChannel(newID.value);
      return true;
    }

    /** Adds waiting blocks to the current channel until it is full, one fails or none is left. */
    method AddWaiting(adds: nat -> AddAnswer) returns (n: nat, ok: bool, ghost b: Builder)
      requires Valid() && m.current.Some? && currentChannel != null && m.current.value < |m.channels|
      modifies currentChannel, currentChannel.channelBuilder
      ensures n <= |blocks| && (b, n, ok) == AddBlocks(cfg, m.channels[m.current.value].builder, blocks, 0, adds)
      ensures var i := m.current.value; Linked(created, builders, m.channels[i := m.channels[i].(builder := b)])
    {
      hide Channel.Valid, Sound, Manager.Shape, Names, Indexes, Distinct, Linked, AddBlock, AddBlocks;
      ghost var i := m.current.value;
      ChannelAt(i);
      ghost var values := m.channels;
      b := values[i].builder;
      assert values[i := values[i].(builder := b)] == values;
      n, ok := 0, true;
      while n < |blocks|
        invariant 0 <= n <= |blocks| && ok
        invariant Linked(created, builders, values[i := values[i].(builder := b)])
        invariant AddBlocks(cfg, b, blocks, n, adds) == AddBlocks(cfg, values[i].builder, blocks, 0, adds)
      {
        ghost var before := b;
        AddBlocksStep(cfg, b, blocks, n, adds);
        b := AddBlock(cfg, before, blocks[n], adds(n)).0;
        var r := AddTo(currentChannel, blocks[n], adds(n), created, builders, values[i := values[i].(builder := before)], i);
        assert values[i := values[i].(builder := before)][i := values[i].(builder := b)] == values[i := values[i].(builder := b)];
        if r == ChannelFull {
          return;
        }
        if r == AddFailed {
          return n, false, b;
        }
        n := n + 1;
        FullOf(created, builders, values[i := values[i].(builder := b)], i);
        if currentChannel.channelBuilder.IsFull() {
          return;
        }
      }
      AddBlocksEnd(cfg, b, blocks, adds);
    }

    /** The blocks added leave the manager, unless one failed. */
    method ProcessBlocks(adds: nat -> AddAnswer) returns (ok: bool)
      requires Valid() && m.current.Some? && currentChannel != null
      modifies this`blocks, this`m, currentChannel, currentChannel.channelBuilder
      ensures Valid() && (m, ok) == ManagerSpec.ProcessBlocks(old(m), adds)
    {
      hide Channel.Valid, Sound, Manager.Shape, Names, Indexes, Distinct, Linked, AddBlock, AddBlocks;
      CurrentAt();
      var n;
      ghost var b;
      n, ok, b := AddWaiting(adds);
      m := ManagerSpec.ProcessBlocks(m, adds).0;
      if ok {
        blocks := blocks[n..];
      }
    }

    method RegisterL1Block(l1Head: uint64)
      requires Valid() && m.current.Some? && currentChannel != null
      modifies this`m, currentChannel, currentChannel.channelBuilder
      ensures Valid() && m == ManagerSpec.RegisterL1Block(old(m), l1Head)
    {
      hide Channel.Valid, Sound, Manager.Shape, Names, Indexes, Distinct, Linked, CheckTimeout;
      ghost var i := m.current.value;
      ChannelAt(i);
      CheckIn(currentChannel, l1Head, created, builders, m.channels, i);
      m := ManagerSpec.RegisterL1Block(m, l1Head);
    }

    /** Remembers the L1 origin of the current channel if it is the latest so far. */
    method NoteOrigin()
      requires Valid() && m.current.Some? && currentChannel != null && m.current.value < |m.channels|
      modifies this`m, this`l1OriginLastClosedChannel
      ensures Valid() && var origin := m.channels[m.current.value].builder.latestL1Origin;
              m == if origin > old(m).l1OriginLastClosed then old(m).(l1OriginLastClosed := origin) else old(m)
    {
      hide Channel.Valid, Sound, Names, Indexes, Distinct, Linked;
      FullOf(created, builders, m.channels, m.current.value);
      var lastClosed := currentChannel.channelBuilder.latestL1Origin;
      if lastClosed > l1OriginLastClosedChannel {
        l1OriginLastClosedChannel := lastClosed;
        m := m.(l1OriginLastClosed := lastClosed);
      }
    }

    /** Asks the current channel for frames and, when it is full, notes its L1 origin. */
    method OutputFrames(a: Answers) returns (ok: bool)
      requires Valid() && m.current.Some? && currentChannel != null && m.current.value < |m.channels| && Ends(a.final)
      requires |m.channels[m.current.value].builder.produced| + Count(a.ready) <= MAX_FRAMES
      requires |m.channels[m.current.value].builder.produced| + Count(a.final) <= MAX_FRAMES
      modifies this`m, this`l1OriginLastClosedChannel, currentChannel, currentChannel.channelBuilder
      ensures Valid() && (m, ok) == CreateFrames(old(m), a)
    {
      hide Channel.Valid, Sound, Manager.Shape, Names, Indexes, Distinct, Linked, ChannelSpec.OutputFrames;
      ghost var i := m.current.value;
      ghost var b := m.channels[i].builder;
      ChannelAt(i);
      var out := if currentChannel.channelBuilder.IsFull() then a.final else a.ready;
      OutputsCount(b, a.closes, out);
      ok := OutputIn(currentChannel, a.closes, out, created, builders, m.channels, i);
      m := SetBuilder(m, i, ChannelSpec.OutputFrames(b, a.closes, out).0);
      FullOf(created, builders, m.channels, i);
      if ok && currentChannel.channelBuilder.IsFull() {
        NoteOrigin();
      }
    }

    /** Puts waiting blocks into the current channel and takes a transaction from it. */
    method BuildTx(l1Head: uint64, a: Answers) returns (r: TxResult)
      requires Valid() && m.current.Some? && currentChannel != null && Ends(a.final) && Reasonable(m, a.(newID := None))
      modifies this, currentChannel, currentChannel.channelBuilder
      ensures Valid() && created == old(created) && builders == old(builders)
      ensures (m, r) == ManagerSpec.BuildTx(old(m), l1Head, a)
    {
      hide Channel.Valid, Sound, Manager.Shape, Names, Indexes, Distinct, Linked, Reasonable, Matches;
      hide ManagerSpec.ProcessBlocks, ManagerSpec.RegisterL1Block, CreateFrames, ManagerSpec.NextTxData;
      BuildBounds(m, l1Head, a);
      var ok := ProcessBlocks(a.adds);
      if !ok {
        return TxError;
      }
      RegisterL1Block(l1Head);
      ok := OutputFrames(a);
      if !ok {
        return TxError;
      }
      CurrentAt();
      r := NextTxData(currentChannel, m.current.value);
    }

    lemma CurrentAt()
      requires Valid() && m.current.Some?
      ensures m.current.value < |created| == |m.channels| && currentChannel == created[m.current.value]
    {
      hide Channel.Valid, Linked, Names, Indexes, Manager.Shape;
    }

    method TxData(l1Head: uint64, a: Answers) returns (r: TxResult)
      requires Valid() && Ends(a.final) && Reasonable(m, a)
      modifies this, created, builders
      ensures Valid() && (m, r) == RequestTx(old(m), l1Head, a)
    {
      hide Channel.Valid, Sound, Manager.Shape, Names, Indexes, Distinct, Linked, FirstWithData, Matches;
      hide EnsureChannel, ManagerSpec.BuildTx, ManagerSpec.NextTxData;
      ghost var i: nat;
      var first: Channel?;
      first, i := FindWithData();
      if first != null {
        ChannelAt(i);
        r := NextTxData(first, i);
        return;
      }
      WaitingBlocks();
      if closed || |blocks| == 0 {
        return EndOfData;
      }
      EnsureReasonable(m, a);
      var ok := EnsureChannelWithSpace(a.newID);
      if !ok {
        return TxError;
      }
      CurrentAt();
      ChannelAt(m.current.value);
      r := BuildTx(l1Head, a);
    }

    lemma WaitingBlocks()
      requires Valid()
      ensures m.blocks == blocks && m.closed == closed
    {
      hide Channel.Valid, Linked, Names, Indexes, Manager.Shape;
    }
  }

  lemma AddBlocksStep(cfg: ChannelConfig, b: Builder, blocks: seq<Block>, n: nat, adds: nat -> AddAnswer)
    requires n < |blocks|
    ensures var (b1, res) := AddBlock(cfg, b, blocks[n], adds(n));
            AddBlocks(cfg, b, blocks, n, adds) ==
            if res == ChannelFull then (b1, n, true)
            else if res == AddFailed then (b1, n, false)
            else if b1.full.Some? then (b1, n + 1, true)
            else AddBlocks(cfg, b1, blocks, n + 1, adds)
  {
    hide AddBlock;
  }

  lemma AddBlocksEnd(cfg: ChannelConfig, b: Builder, blocks: seq<Block>, adds: nat -> AddAnswer)
    ensures AddBlocks(cfg, b, blocks, |blocks|, adds) == (b, |blocks|, true)
  {
  }

  /** Nothing before the output of frames produces any. */
  lemma BuildBounds(m: Manager, l1Head: uint64, a: Answers)
    requires m.Shape() && m.current.Some? && Reasonable(m, a.(newID := None))
    ensures var (m1, ok) := ManagerSpec.ProcessBlocks(m, a.adds);
            var m2 := ManagerSpec.RegisterL1Block(m1, l1Head);
            var i := m.current.value;
            && m1.current == m.current && m2.current == m.current && i < |m2.channels|
            && |m2.channels[i].builder.produced| + Count(a.ready) <= MAX_FRAMES
            && |m2.channels[i].builder.produced| + Count(a.final) <= MAX_FRAMES
  {
    hide AddBlocks;
  }

  lemma FullOf(created: seq<Channel>, builders: seq<ChannelBuilder>, values: seq<Chan>, i: nat)
    requires Linked(created, builders, values) && i < |created|
    ensures |created| == |values|
    ensures created[i].channelBuilder.fullErr == values[i].builder.full
    ensures created[i].channelBuilder.latestL1Origin == values[i].builder.latestL1Origin
  {
    hide Channel.Valid;
  }

  /** A new channel joins the others. */
  lemma NewLinked(created: seq<Channel>, builders: seq<ChannelBuilder>, values: seq<Chan>, c: Channel)
    requires Linked(created, builders, values) && c.Valid() && c !in created && c.channelBuilder !in builders
    ensures Linked(created + [c], builders + [c.channelBuilder], values + [c.View()])
  {
    hide Channel.Valid, Channel.View;
  }

  lemma {:induction false} RemoveAt(q: seq<nat>, i: nat, index: nat)
    requires index <= |q| && (forall k :: 0 <= k < index ==> q[k] != i) && (index < |q| ==> q[index] == i)
    ensures RemoveFirst(q, i) == if index < |q| then q[..index] + q[index + 1..] else q
  {
    if q != [] && index > 0 {
      var rest := q[1..];
      assert forall k :: 0 <= k < index - 1 ==> rest[k] == q[k + 1];
      RemoveAt(rest, i, index - 1);
      if index < |q| {
        assert [q[0]] + (rest[..index - 1] + rest[index..]) == q[..index] + q[index + 1..];
      } else {
        assert q == [q[0]] + rest;
      }
    }
  }
}
