/** The blocks of the batcher stay in order on their way through the channels (op-batcher/batcher/channel_manager.go). */
module BlockOrder {
  import opened Words
  import opened Merkle
  import opened TxIds
  import opened ChannelSpec
  import opened ManagerSpec
  import opened ManagerLaws

  // ----- accepted blocks form a chain -----

  /** Every block names its predecessor as its parent, unless that has the hash which stands for none. */
  predicate Chain(bs: seq<Block>) {
    forall j :: 0 < j < |bs| ==> bs[j - 1].hash == ZERO32 || bs[j].parentHash == bs[j - 1].hash
  }

  function LastHash(bs: seq<Block>): Bytes32 {
    if bs == [] then ZERO32 else bs[|bs| - 1].hash
  }

  predicate Chained(m: Manager) {
    Chain(m.accepted) && m.tip == LastHash(m.accepted)
  }

  predicate SameTip(m: Manager, m': Manager) {
    m'.accepted == m.accepted && m'.tip == m.tip
  }

  lemma PartsKeepTip(m: Manager, i: nat, l1Head: uint64, a: Answers)
    requires m.Shape()
    ensures i < |m.channels| ==> SameTip(m, NextTxData(m, i).0)
    ensures SameTip(m, EnsureChannel(m, a.newID).0)
    ensures m.current.Some? ==>
              SameTip(m, ProcessBlocks(m, a.adds).0) && SameTip(m, RegisterL1Block(m, l1Head)) && SameTip(m, CreateFrames(m, a).0)
  {
    hide AddBlocks, OutputFrames, CheckTimeout, TakeTx, NextTx, HasTxData, NewChannel, Manager.Shape;
  }

  lemma BuildKeepsTip(m: Manager, l1Head: uint64, a: Answers)
    requires m.Shape() && m.current.Some?
    ensures SameTip(m, BuildTx(m, l1Head, a).0)
  {
    hide NextTxData, ProcessBlocks, RegisterL1Block, CreateFrames;
    PartsKeepTip(m, 0, l1Head, a);
    var (m1, added) := ProcessBlocks(m, a.adds);
    if added {
      PartsKeepTip(m1, 0, l1Head, a);
      var m2 := RegisterL1Block(m1, l1Head);
      PartsKeepTip(m2, 0, l1Head, a);
      var (m3, output) := CreateFrames(m2, a);
      if output {
        PartsKeepTip(m3, m3.current.value, l1Head, a);
      }
    }
  }

  lemma RequestKeepsTip(m: Manager, l1Head: uint64, a: Answers)
    requires m.Shape()
    ensures SameTip(m, RequestTx(m, l1Head, a).0)
  {
    hide NextTxData, EnsureChannel, BuildTx, Manager.Shape, FirstWithData;
    var first := FirstWithData(m, 0);
    if first.Some? {
      FirstInRange(m, first.value);
      PartsKeepTip(m, first.value, l1Head, a);
    } else {
      PartsKeepTip(m, 0, l1Head, a);
      var (m1, open) := EnsureChannel(m, a.newID);
      if open {
        BuildKeepsTip(m1, l1Head, a);
      }
    }
  }

  lemma ServeKeepsTip(m: Manager, c: Call)
    requires m.Shape() && !c.CallAdd?
    ensures SameTip(m, Serve(m, c))
  {
    hide RequestTx, TimedOut, RemoveFirst, TxFailed, FullySubmitted, FramePublished;
    if c.CallTxData? {
      RequestKeepsTip(m, c.l1Head, c.answers);
    }
  }

  lemma {:induction false} RunIsChained(m: Manager, cs: seq<Call>)
    requires m.Shape() && Chained(m)
    ensures Chained(ServeAll(m, cs))
    decreases |cs|
  {
    hide Manager.Shape, RequestTx, FailTx, ConfirmTx;
    if cs != [] {
      if !cs[0].CallAdd? {
        ServeKeepsTip(m, cs[0]);
      }
      RunIsChained(Serve(m, cs[0]), cs[1..]);
    }
  }

  /** In every run, the blocks taken in are a chain; a block that does not extend it is refused and changes nothing. */
  lemma AcceptedIsChain(cfg: ChannelConfig, l1Origin: uint64, cs: seq<Call>, block: Block)
    ensures var m := ServeAll(Cleared(cfg, l1Origin), cs);
            && Chain(m.accepted)
            && (var (m', ok) := AddL2Block(m, block);
                && (ok <==> LastHash(m.accepted) == ZERO32 || block.parentHash == LastHash(m.accepted))
                && m'.accepted == (if ok then m.accepted + [block] else m.accepted)
                && m'.blocks == (if ok then m.blocks + [block] else m.blocks))
  {
    RunIsChained(Cleared(cfg, l1Origin), cs);
  }

  // ----- blocks that come back -----

  /** Two confirmed transactions, with `id` confirmed at `block`, are at least the channel timeout apart. */
  predicate TooFarApart(c: Chan, id: string, block: uint64) {
    var at := c.confirmed[id := block];
    exists x, y :: x in at && y in at && at[x] >= at[y] + c.cfg.channelTimeout
  }

  /** When a confirmation finds the channel timed out, its blocks come back in order, in front of those waiting;
      otherwise none comes back. */
  lemma BlocksComeBackFirst(m: Manager, id: string, block: uint64)
    requires m.Shape()
    ensures var m' := ConfirmTx(m, id, block);
            if id in m.txChannels && id in m.channels[m.txChannels[id]].pending && TooFarApart(m.channels[m.txChannels[id]], id, block)
            then m'.blocks == m.channels[m.txChannels[id]].builder.blocks + m.blocks && m'.submitted == m.submitted
            else m'.blocks == m.blocks
  {
    hide UpdateTimeout, RemoveFirst, FullySubmitted;
    if id in m.txChannels {
      var c := m.channels[m.txChannels[id]];
      if id in c.pending {
        TimedOutMeans(c, id, block);
      }
      assert [] + m.blocks == m.blocks;
    }
  }

  lemma TimedOutMeans(c: Chan, id: string, block: uint64)
    requires id in c.pending
    ensures TimedOut(Confirm(c, id, block)) <==> TooFarApart(c, id, block)
    ensures Confirm(c, id, block).builder.blocks == c.builder.blocks
  {
    hide UpdateTimeout;
    PublishedKeepsBlocks(c.cfg, c.builder, block);
    var c1, at := Confirm(c, id, block), c.confirmed[id := block];
    if TimedOut(c1) {
      var x, y :| x in c1.confirmed && y in c1.confirmed && c1.confirmed[x] - c1.confirmed[y] >= c1.cfg.channelTimeout;
      assert at[x] >= at[y] + c.cfg.channelTimeout;
    }
    if TooFarApart(c, id, block) {
      var x, y :| x in at && y in at && at[x] >= at[y] + c.cfg.channelTimeout;
      assert c1.confirmed[x] - c1.confirmed[y] >= c1.cfg.channelTimeout;
    }
  }

  // ----- order over whole runs -----

  /** The blocks of the channels in the order they were opened, leaving out those handed back. */
  function Flat(cs: seq<Chan>, returned: set<nat>): seq<Block> {
    if cs == [] then []
    else
      var n := |cs| - 1;
      Flat(cs[..n], returned) + if n in returned then [] else cs[n].builder.blocks
  }

  /** Channels and waiting blocks together are the accepted blocks in order, and only the channel opened last is open. */
  predicate InOrder(m: Manager, returned: set<nat>) {
    && Flat(m.channels, returned) + m.blocks == m.accepted
    && (m.current.Some? ==> m.current.value == |m.channels| - 1 && m.current.value !in returned)
    && (forall i :: i in returned ==> i < |m.channels|)
  }

  predicate SameChannelBlocks(cs: seq<Chan>, cs': seq<Chan>) {
    |cs| == |cs'| && forall i :: 0 <= i < |cs| ==> cs'[i].builder.blocks == cs[i].builder.blocks
  }

  lemma {:induction false} FlatSame(cs: seq<Chan>, cs': seq<Chan>, returned: set<nat>)
    requires SameChannelBlocks(cs, cs')
    ensures Flat(cs', returned) == Flat(cs, returned)
  {
    if cs != [] {
      FlatSame(cs[..|cs| - 1], cs'[..|cs| - 1], returned);
    }
  }

  lemma {:induction false} FlatReturned(cs: seq<Chan>, returned: set<nat>, i: nat)
    requires i < |cs| && i !in returned
    requires forall j :: i < j < |cs| && j !in returned ==> cs[j].builder.blocks == []
    ensures Flat(cs, returned + {i}) + cs[i].builder.blocks == Flat(cs, returned)
  {
    var n := |cs| - 1;
    if i < n {
      FlatReturned(cs[..n], returned, i);
      assert n in returned + {i} <==> n in returned;
    } else {
      FlatBelow(cs[..n], returned, i);
    }
  }

  lemma {:induction false} FlatBelow(cs: seq<Chan>, returned: set<nat>, i: nat)
    requires i >= |cs|
    ensures Flat(cs, returned + {i}) == Flat(cs, returned)
  {
    if cs != [] {
      FlatBelow(cs[..|cs| - 1], returned, i);
    }
  }

  /** Steps that move no block. */
  lemma NoBlockMoves(m: Manager, m': Manager, returned: set<nat>)
    requires InOrder(m, returned) && SameChannelBlocks(m.channels, m'.channels)
    requires m'.blocks == m.blocks && m'.accepted == m.accepted && (m'.current == m.current || m'.current == None)
    ensures InOrder(m', returned)
  {
    FlatSame(m.channels, m'.channels, returned);
  }

  lemma AddInOrder(m: Manager, block: Block, returned: set<nat>)
    requires m.Shape() && InOrder(m, returned)
    ensures InOrder(AddL2Block(m, block).0, returned)
  {
    Assoc(Flat(m.channels, returned), m.blocks, [block]);
  }

  lemma Assoc(a: seq<Block>, b: seq<Block>, c: seq<Block>)
    ensures (a + b) + c == a + (b + c)
  {
  }

  lemma FailInOrder(m: Manager, id: string, returned: set<nat>)
    requires m.Shape() && InOrder(m, returned)
    ensures InOrder(FailTx(m, id), returned)
  {
    hide RemoveFirst;
    NoBlockMoves(m, FailTx(m, id), returned);
  }

  /** The channel that a call hands back with blocks in it. */
  function HandsBack(m: Manager, c: Call): (r: Option<nat>)
    requires m.Shape()
    ensures r.Some? ==> r.value < |m.channels|
  {
    if c.CallConfirmed? && c.id in m.txChannels && c.id in m.channels[m.txChannels[c.id]].pending &&
       TooFarApart(m.channels[m.txChannels[c.id]], c.id, c.l1Block) && m.channels[m.txChannels[c.id]].builder.blocks != []
    then Some(m.txChannels[c.id]) else None
  }

  /** A channel handed back is the last that still holds blocks, and was not handed back before. */
  predicate HandsBackLast(m: Manager, returned: set<nat>, i: nat) {
    i !in returned && forall j :: i < j < |m.channels| && j !in returned ==> m.channels[j].builder.blocks == []
  }

  lemma ConfirmInOrder(m: Manager, id: string, block: uint64, returned: set<nat>)
    requires m.Shape() && InOrder(m, returned)
    requires var h := HandsBack(m, CallConfirmed(id, block)); h.Some? ==> HandsBackLast(m, returned, h.value)
    ensures var h := HandsBack(m, CallConfirmed(id, block));
            InOrder(ConfirmTx(m, id, block), if h.Some? then returned + {h.value} else returned)
  {
    hide RemoveFirst, FullySubmitted, TooFarApart, TimedOut, FramePublished, Manager.Shape;
    var m', h := ConfirmTx(m, id, block), HandsBack(m, CallConfirmed(id, block));
    BlocksComeBackFirst(m, id, block);
    ConfirmMoves(m, id, block);
    if h.Some? {
      var i := h.value;
      FlatReturned(m.channels, returned, i);
      FlatSame(m.channels, m'.channels, returned + {i});
      Assoc(Flat(m.channels, returned + {i}), m.channels[i].builder.blocks, m.blocks);
    } else {
      if id in m.txChannels {
        assert m.channels[m.txChannels[id]].builder.blocks + m.blocks == m.blocks || m'.blocks == m.blocks;
      }
      NoBlockMoves(m, m', returned);
    }
  }

  /** A confirmation leaves the blocks of every channel alone; a channel that is done is not current any more. */
  lemma ConfirmMoves(m: Manager, id: string, block: uint64)
    requires m.Shape()
    ensures var m' := ConfirmTx(m, id, block);
            && SameChannelBlocks(m.channels, m'.channels) && m'.accepted == m.accepted
            && (m'.current == m.current || m'.current == None)
            && (id in m.txChannels ==> m.txChannels[id] < |m.channels|)
            && (id in m.txChannels && id in m.channels[m.txChannels[id]].pending && TooFarApart(m.channels[m.txChannels[id]], id, block) ==>
                  m'.current != Some(m.txChannels[id]))
  {
    hide RemoveFirst, FullySubmitted, TooFarApart, TimedOut, UpdateTimeout;
    if id in m.txChannels {
      var c := m.channels[m.txChannels[id]];
      PublishedKeepsBlocks(c.cfg, c.builder, block);
      if id in c.pending {
        TimedOutMeans(c, id, block);
      }
    }
  }

  // ----- requests -----

  lemma NextInOrder(m: Manager, i: nat, returned: set<nat>)
    requires m.Shape() && i < |m.channels| && InOrder(m, returned)
    ensures InOrder(NextTxData(m, i).0, returned)
  {
    hide TxKey, HasTxData, Batch;
    NoBlockMoves(m, NextTxData(m, i).0, returned);
  }

  lemma EnsureInOrder(m: Manager, newID: Option<ChannelID>, returned: set<nat>)
    requires m.Shape() && InOrder(m, returned)
    ensures InOrder(EnsureChannel(m, newID).0, returned)
  {
    var m' := EnsureChannel(m, newID).0;
    if m' != m {
      var n := |m.channels|;
      assert m'.channels[..n] == m.channels && m'.channels[n].builder.blocks == [];
      assert Flat(m'.channels, returned) == Flat(m.channels, returned) + [];
    }
  }

  /** Adding fails after some of the waiting blocks went into the channel; they then stay waiting as well. */
  predicate FailsHalfway(m: Manager, adds: nat -> AddAnswer)
    requires m.Shape() && m.current.Some?
  {
    var (b, n, ok) := AddBlocks(m.cfg, m.channels[m.current.value].builder, m.blocks, 0, adds);
    !ok && n > 0
  }

  lemma FlatLast(cs: seq<Chan>, returned: set<nat>, b: Builder)
    requires |cs| > 0 && |cs| - 1 !in returned
    ensures var last := |cs| - 1;
            && Flat(cs, returned) == Flat(cs[..last], returned) + cs[last].builder.blocks
            && Flat(cs[last := cs[last].(builder := b)], returned) == Flat(cs[..last], returned) + b.blocks
  {
    var last := |cs| - 1;
    assert cs[last := cs[last].(builder := b)][..last] == cs[..last];
  }

  lemma MoveOver(front: seq<Block>, held: seq<Block>, waiting: seq<Block>, n: nat)
    requires n <= |waiting|
    ensures (front + held) + waiting == (front + (held + waiting[0..n])) + waiting[n..]
  {
  }

  lemma ProcessInOrder(m: Manager, adds: nat -> AddAnswer, returned: set<nat>)
    requires m.Shape() && m.current.Some? && InOrder(m, returned) && !FailsHalfway(m, adds)
    ensures InOrder(ProcessBlocks(m, adds).0, returned)
  {
    hide AddBlocks, Flat;
    var i, last := m.current.value, |m.channels| - 1;
    var (b, n, ok) := AddBlocks(m.cfg, m.channels[i].builder, m.blocks, 0, adds);
    var m' := ProcessBlocks(m, adds).0;
    if !ok {
      assert m.blocks[0..0] == [] && b.blocks == m.channels[i].builder.blocks;
      NoBlockMoves(m, m', returned);
    } else {
      FlatLast(m.channels, returned, b);
      MoveOver(Flat(m.channels[..last], returned), m.channels[last].builder.blocks, m.blocks, n);
    }
  }

  lemma BuildInOrder(m: Manager, l1Head: uint64, a: Answers, returned: set<nat>)
    requires m.Shape() && m.current.Some? && InOrder(m, returned) && !FailsHalfway(m, a.adds)
    ensures InOrder(BuildTx(m, l1Head, a).0, returned)
  {
    hide NextTxData, ProcessBlocks, RegisterL1Block, CreateFrames, InOrder, FailsHalfway;
    ProcessInOrder(m, a.adds, returned);
    var (m1, added) := ProcessBlocks(m, a.adds);
    if added {
      var m2 := RegisterL1Block(m1, l1Head);
      RegisterMoves(m1, l1Head, returned);
      var (m3, output) := CreateFrames(m2, a);
      CreateMoves(m2, a, returned);
      if output {
        NextInOrder(m3, m3.current.value, returned);
      }
    }
  }

  lemma RegisterMoves(m: Manager, l1Head: uint64, returned: set<nat>)
    requires m.Shape() && m.current.Some? && InOrder(m, returned)
    ensures InOrder(RegisterL1Block(m, l1Head), returned)
  {
    NoBlockMoves(m, RegisterL1Block(m, l1Head), returned);
  }

  lemma CreateMoves(m: Manager, a: Answers, returned: set<nat>)
    requires m.Shape() && m.current.Some? && InOrder(m, returned)
    ensures InOrder(CreateFrames(m, a).0, returned)
  {
    hide OutputFrames;
    var b := m.channels[m.current.value].builder;
    OutputsKeepBlocks(b, a.closes, if b.full.Some? then a.final else a.ready);
    NoBlockMoves(m, CreateFrames(m, a).0, returned);
  }

  /** The request gets to adding blocks, and fails halfway. */
  predicate RequestFailsHalfway(m: Manager, a: Answers)
    requires m.Shape()
  {
    FirstWithData(m, 0).None? && !m.closed && m.blocks != [] &&
    var (m1, open) := EnsureChannel(m, a.newID);
    open && FailsHalfway(m1, a.adds)
  }

  lemma RequestInOrder(m: Manager, l1Head: uint64, a: Answers, returned: set<nat>)
    requires m.Shape() && InOrder(m, returned) && !RequestFailsHalfway(m, a)
    ensures InOrder(RequestTx(m, l1Head, a).0, returned)
  {
    hide NextTxData, EnsureChannel, BuildTx, Manager.Shape, FirstWithData, InOrder, FailsHalfway;
    var first := FirstWithData(m, 0);
    if first.Some? {
      FirstInRange(m, first.value);
      NextInOrder(m, first.value, returned);
    } else if !m.closed && m.blocks != [] {
      EnsureInOrder(m, a.newID, returned);
      var (m1, open) := EnsureChannel(m, a.newID);
      if open {
        BuildInOrder(m1, l1Head, a, returned);
      }
    }
  }

  /** No request fails halfway, and every channel handed back is the last that still holds blocks, handed back once. */
  predicate Orderly(m: Manager, c: Call, returned: set<nat>)
    requires m.Shape()
  {
    && (c.CallTxData? ==> !RequestFailsHalfway(m, c.answers))
    && (HandsBack(m, c).Some? ==> HandsBackLast(m, returned, HandsBack(m, c).value))
  }

  function ReturnedBy(m: Manager, c: Call, returned: set<nat>): set<nat>
    requires m.Shape()
  {
    if HandsBack(m, c).Some? then returned + {HandsBack(m, c).value} else returned
  }

  predicate OrderlyRun(m: Manager, cs: seq<Call>, returned: set<nat>)
    requires m.Shape()
    decreases |cs|
  {
    cs == [] || (Orderly(m, cs[0], returned) && OrderlyRun(Serve(m, cs[0]), cs[1..], ReturnedBy(m, cs[0], returned)))
  }

  /** The channels handed back in a run. */
  function Returned(m: Manager, cs: seq<Call>, returned: set<nat>): set<nat>
    requires m.Shape()
    decreases |cs|
  {
    if cs == [] then returned else Returned(Serve(m, cs[0]), cs[1..], ReturnedBy(m, cs[0], returned))
  }

  lemma ServeInOrder(m: Manager, c: Call, returned: set<nat>)
    requires m.Shape() && InOrder(m, returned) && Orderly(m, c, returned)
    ensures InOrder(Serve(m, c), ReturnedBy(m, c, returned))
  {
    hide RequestTx, FailTx, ConfirmTx, AddL2Block, InOrder, RequestFailsHalfway, HandsBackLast, TooFarApart, Manager.Shape;
    match c
    case CallAdd(block) => AddInOrder(m, block, returned);
    case CallTxData(l1Head, answers) => RequestInOrder(m, l1Head, answers, returned);
    case CallFailed(id) => FailInOrder(m, id, returned);
    case CallConfirmed(id, l1Block) => ConfirmInOrder(m, id, l1Block, returned);
  }

  // ----- exactly when a call keeps the order -----

  /** No two of the blocks are the same. */
  predicate Distinct(bs: seq<Block>) {
    forall i, j :: 0 <= i < j < |bs| ==> bs[i] != bs[j]
  }

  /** Around channel `i`, the blocks held are those before it, its own, and those after it. */
  lemma {:induction false} FlatAround(cs: seq<Chan>, returned: set<nat>, i: nat) returns (before: seq<Block>, after: seq<Block>)
    requires i < |cs| && i !in returned
    ensures Flat(cs, returned) == before + cs[i].builder.blocks + after && Flat(cs, returned + {i}) == before + after
    ensures forall j :: i < j < |cs| && j !in returned && cs[j].builder.blocks != [] ==> after != []
  {
    hide Flat;
    var n := |cs| - 1;
    FlatUnfold(cs, returned);
    FlatUnfold(cs, returned + {i});
    if i == n {
      before, after := Flat(cs[..n], returned), [];
      FlatBelow(cs[..n], returned, i);
    } else {
      before, after := FlatAround(cs[..n], returned, i);
      var last := if n in returned then [] else cs[n].builder.blocks;
      Assoc(before + cs[i].builder.blocks, after, last);
      Assoc(before, after, last);
      assert forall j :: i < j < n ==> cs[..n][j] == cs[j];
      after := after + last;
    }
  }

  lemma FlatUnfold(cs: seq<Chan>, returned: set<nat>)
    requires cs != []
    ensures var n := |cs| - 1; Flat(cs, returned) == Flat(cs[..n], returned) + if n in returned then [] else cs[n].builder.blocks
  {
  }

  /** A part that is not empty cannot change places with another. */
  lemma SwapBreaks(before: seq<Block>, x: seq<Block>, after: seq<Block>, waiting: seq<Block>)
    requires x != [] && after != [] && Distinct(before + x + after + waiting)
    ensures before + after + (x + waiting) != before + x + after + waiting
  {
    var all, swapped := before + x + after + waiting, before + after + (x + waiting);
    assert swapped[|before|] == after[0] == all[|before| + |x|];
  }

  /** Handing back out of turn breaks the order. */
  lemma OutOfTurnBreaks(m: Manager, id: string, block: uint64, returned: set<nat>)
    requires m.Shape() && InOrder(m, returned) && Distinct(m.accepted)
    requires var h := HandsBack(m, CallConfirmed(id, block)); h.Some? && !HandsBackLast(m, returned, h.value)
    ensures var m' := ConfirmTx(m, id, block);
            Flat(m'.channels, returned + {HandsBack(m, CallConfirmed(id, block)).value}) + m'.blocks != m'.accepted
  {
    hide RemoveFirst, FullySubmitted, TooFarApart, TimedOut, FramePublished, Manager.Shape, Distinct, Flat;
    var m', i := ConfirmTx(m, id, block), HandsBack(m, CallConfirmed(id, block)).value;
    BlocksComeBackFirst(m, id, block);
    ConfirmMoves(m, id, block);
    FlatSame(m.channels, m'.channels, returned + {i});
    if i in returned {
      assert returned + {i} == returned;
    } else {
      var before, after := FlatAround(m.channels, returned, i);
      SwapBreaks(before, m.channels[i].builder.blocks, after, m.blocks);
    }
  }

  /** So does failing halfway: the blocks added are there twice. */
  lemma HalfwayBreaks(m: Manager, l1Head: uint64, a: Answers, returned: set<nat>)
    requires m.Shape() && InOrder(m, returned) && RequestFailsHalfway(m, a)
    ensures var m' := RequestTx(m, l1Head, a).0; |Flat(m'.channels, returned) + m'.blocks| > |m'.accepted|
  {
    hide AddBlocks, Flat, HasTxData, RegisterL1Block, CreateFrames;
    var m1 := EnsureChannel(m, a.newID).0;
    EnsureInOrder(m, a.newID, returned);
    var b := AddBlocks(m1.cfg, m1.channels[m1.current.value].builder, m1.blocks, 0, a.adds).0;
    FlatLast(m1.channels, returned, b);
  }

  /** Exactly when one call keeps channels and waiting blocks in the order they were taken in. */
  lemma CallKeepsOrderIff(m: Manager, c: Call, returned: set<nat>)
    requires m.Shape() && InOrder(m, returned) && Distinct(m.accepted)
    ensures var m' := Serve(m, c);
            Flat(m'.channels, ReturnedBy(m, c, returned)) + m'.blocks == m'.accepted <==> Orderly(m, c, returned)
  {
    hide RequestTx, FailTx, ConfirmTx, AddL2Block, RequestFailsHalfway, HandsBackLast, TooFarApart, Manager.Shape, Distinct, Flat;
    if Orderly(m, c, returned) {
      ServeInOrder(m, c, returned);
    } else if c.CallTxData? {
      HalfwayBreaks(m, c.l1Head, c.answers, returned);
    } else {
      OutOfTurnBreaks(m, c.id, c.l1Block, returned);
    }
  }

  lemma {:induction false} RunInOrder(m: Manager, cs: seq<Call>, returned: set<nat>)
    requires m.Shape() && InOrder(m, returned) && OrderlyRun(m, cs, returned)
    ensures InOrder(ServeAll(m, cs), Returned(m, cs, returned))
    decreases |cs|
  {
    hide Serve, InOrder, Orderly, ReturnedBy;
    if cs != [] {
      ServeInOrder(m, cs[0], returned);
      RunInOrder(Serve(m, cs[0]), cs[1..], ReturnedBy(m, cs[0], returned));
    }
  }

  /** In every orderly run from a cleared manager, the blocks in the channels, in the order these were opened and leaving
      out those handed back, followed by the waiting blocks, are exactly the blocks taken in, in order. */
  lemma BlocksStayInOrder(cfg: ChannelConfig, l1Origin: uint64, cs: seq<Call>)
    requires OrderlyRun(Cleared(cfg, l1Origin), cs, {})
    ensures var m := ServeAll(Cleared(cfg, l1Origin), cs);
            Flat(m.channels, Returned(Cleared(cfg, l1Origin), cs, {})) + m.blocks == m.accepted
  {
    RunInOrder(Cleared(cfg, l1Origin), cs, {});
  }

  /** No channel is handed back in the run, and no request fails halfway. */
  predicate NothingReturned(m: Manager, cs: seq<Call>)
    requires m.Shape()
    decreases |cs|
  {
    cs == [] ||
    (&& HandsBack(m, cs[0]).None? && (cs[0].CallTxData? ==> !RequestFailsHalfway(m, cs[0].answers))
     && NothingReturned(Serve(m, cs[0]), cs[1..]))
  }

  lemma {:induction false} NothingReturnedIsOrderly(m: Manager, cs: seq<Call>, returned: set<nat>)
    requires m.Shape() && NothingReturned(m, cs)
    ensures OrderlyRun(m, cs, returned) && Returned(m, cs, returned) == returned
    decreases |cs|
  {
    hide Serve, RequestFailsHalfway, HandsBack;
    if cs != [] {
      NothingReturnedIsOrderly(Serve(m, cs[0]), cs[1..], returned);
    }
  }

  /** In particular, where nothing comes back, all channels together and the waiting blocks are what was taken in. */
  lemma BlocksStayInOrderWithoutReturns(cfg: ChannelConfig, l1Origin: uint64, cs: seq<Call>)
    requires NothingReturned(Cleared(cfg, l1Origin), cs)
    ensures var m := ServeAll(Cleared(cfg, l1Origin), cs); Flat(m.channels, {}) + m.blocks == m.accepted
  {
    NothingReturnedIsOrderly(Cleared(cfg, l1Origin), cs, {});
    BlocksStayInOrder(cfg, l1Origin, cs);
  }

  /** A request that fails halfway leaves the blocks it added waiting as well: two blocks wait, the first is accepted and
      the second fails, and then the first is in the channel and still in front. */
  lemma HalfwayRepeatsBlocks(m: Manager, first: Block, second: Block, adds: nat -> AddAnswer)
    requires m.Shape() && m.current.Some? && m.blocks == [first, second] && m.channels[m.current.value].builder.full.None?
    requires adds(0) == Accepted(0, 0, false) && adds(1) == BatchError
    ensures var (m', ok) := ProcessBlocks(m, adds);
            && !ok && FailsHalfway(m, adds) && m'.blocks == m.blocks
            && m'.channels[m.current.value].builder.blocks == m.channels[m.current.value].builder.blocks + [first]
  {
    hide UpdateTimeout;
    var b := m.channels[m.current.value].builder;
    var b1 := AddBlock(m.cfg, b, first, adds(0)).0;
    TimeoutKeepsFull(b.(blocks := b.blocks + [first]), (0 + m.cfg.seqWindowSize - m.cfg.subSafetyMargin) % U64, SeqWindowClose);
    assert AddBlocks(m.cfg, b1, m.blocks, 1, adds) == (b1, 1, false);
    assert AddBlocks(m.cfg, b, m.blocks, 0, adds) == (b1, 1, false);
  }

  lemma TimeoutKeepsFull(b: Builder, deadline: uint64, reason: Reason)
    ensures UpdateTimeout(b, deadline, reason).full == b.full && UpdateTimeout(b, deadline, reason).blocks == b.blocks
  {
  }
}
