/** No block is lost on its way through the channel manager, and every transaction is routed to its channel. */
module ManagerLaws {
  import opened Words
  import opened TxIds
  import opened ChannelSpec
  import opened ChannelLaws
  import opened ManagerSpec

  // ----- no block is lost -----

  predicate InChannel(m: Manager, i: nat, b: Block) {
    i < |m.channels| && b in m.channels[i].builder.blocks
  }

  /** The block is waiting, in a channel in the queue, or in a channel reported fully submitted. */
  predicate Kept(m: Manager, b: Block) {
    || b in m.blocks
    || (exists i: nat :: i in m.queue && InChannel(m, i, b))
    || (exists i: nat :: i in m.submitted && InChannel(m, i, b))
  }

  predicate NoLoss(m: Manager) {
    forall j :: 0 <= j < |m.accepted| ==> Kept(m, m.accepted[j])
  }

  /** Nothing leaves the waiting blocks, the queue, the submitted channels or a channel's blocks. */
  predicate Keeps(m: Manager, m': Manager) {
    && m'.accepted == m.accepted
    && (forall b :: b in m.blocks ==> b in m'.blocks)
    && (forall i :: i in m.queue ==> i in m'.queue)
    && m.submitted <= m'.submitted
    && SameBlocks(m, m')
  }

  predicate SameBlocks(m: Manager, m': Manager) {
    |m.channels| <= |m'.channels| &&
    forall i :: 0 <= i < |m.channels| ==> m.channels[i].builder.blocks <= m'.channels[i].builder.blocks
  }

  lemma StillInChannel(m: Manager, m': Manager, i: nat, b: Block)
    requires SameBlocks(m, m') && InChannel(m, i, b)
    ensures InChannel(m', i, b)
  {
    var k :| 0 <= k < |m.channels[i].builder.blocks| && m.channels[i].builder.blocks[k] == b;
    assert m'.channels[i].builder.blocks[k] == b;
  }

  lemma KeepsNoLoss(m: Manager, m': Manager)
    requires NoLoss(m) && Keeps(m, m')
    ensures NoLoss(m')
  {
    forall b | Kept(m, b) ensures Kept(m', b) {
      if i: nat :| i in m.queue && InChannel(m, i, b) {
        StillInChannel(m, m', i, b);
      } else if i: nat :| i in m.submitted && InChannel(m, i, b) {
        StillInChannel(m, m', i, b);
      }
    }
  }

  lemma AddKeepsNoLoss(m: Manager, block: Block)
    requires m.Shape() && NoLoss(m)
    ensures NoLoss(AddL2Block(m, block).0)
  {
    var m' := AddL2Block(m, block).0;
    if m' != m {
      forall b | Kept(m, b) ensures Kept(m', b) {
        if i: nat :| i in m.queue && InChannel(m, i, b) {
          StillInChannel(m, m', i, b);
        } else if i: nat :| i in m.submitted && InChannel(m, i, b) {
          StillInChannel(m, m', i, b);
        }
      }
      assert block in m'.blocks;
    }
  }

  lemma FailKeepsNoLoss(m: Manager, id: string)
    requires m.Shape() && NoLoss(m) && !m.closed
    ensures NoLoss(FailTx(m, id))
  {
    KeepsNoLoss(m, FailTx(m, id));
  }

  /** A channel leaves the queue only with its blocks handed back or as fully submitted. */
  lemma ConfirmKeepsNoLoss(m: Manager, id: string, block: uint64)
    requires m.Shape() && NoLoss(m)
    ensures NoLoss(ConfirmTx(m, id, block))
  {
    hide TimedOut, FullySubmitted, RemoveFirst, FramePublished, Manager.Shape;
    var m' := ConfirmTx(m, id, block);
    if id in m.txChannels {
      RouteInRange(m, id);
      var i := m.txChannels[id];
      PublishedKeepsBlocks(m.channels[i].cfg, m.channels[i].builder, block);
      assert SameBlocks(m, m');
      forall b | Kept(m, b) ensures Kept(m', b) {
        if j: nat :| j in m.queue && InChannel(m, j, b) {
          StillInChannel(m, m', j, b);
          assert j != i ==> j in m'.queue;
        } else if j: nat :| j in m.submitted && InChannel(m, j, b) {
          StillInChannel(m, m', j, b);
        }
      }
    }
  }

  lemma RouteInRange(m: Manager, id: string)
    requires m.Shape() && id in m.txChannels
    ensures m.txChannels[id] < |m.channels|
  {
  }

  lemma PublishedKeepsBlocks(cfg: ChannelConfig, b: Builder, block: uint64)
    ensures FramePublished(cfg, b, block).blocks == b.blocks
  {
  }

  lemma NextKeeps(m: Manager, i: nat)
    requires m.Shape() && i < |m.channels|
    ensures Keeps(m, NextTxData(m, i).0)
  {
  }

  lemma EnsureKeeps(m: Manager, newID: Option<ChannelID>)
    requires m.Shape()
    ensures Keeps(m, EnsureChannel(m, newID).0)
  {
  }

  /** The blocks that leave the manager are in the current channel, which is in the queue. */
  lemma ProcessKeepsNoLoss(m: Manager, adds: nat -> AddAnswer)
    requires m.Shape() && NoLoss(m) && m.current.Some?
    ensures NoLoss(ProcessBlocks(m, adds).0)
  {
    hide AddBlocks;
    var m' := ProcessBlocks(m, adds).0;
    var i := m.current.value;
    var (b1, n, ok) := AddBlocks(m.cfg, m.channels[i].builder, m.blocks, 0, adds);
    forall b | Kept(m, b) ensures Kept(m', b) {
      if b in m.blocks {
        MovedBlock(m.blocks, n, b);
        assert b in m.blocks[..n] ==> InChannel(m', i, b);
      } else if j: nat :| j in m.queue && InChannel(m, j, b) {
        StillInChannel(m, m', j, b);
      } else if j: nat :| j in m.submitted && InChannel(m, j, b) {
        StillInChannel(m, m', j, b);
      }
    }
  }

  lemma MovedBlock(bs: seq<Block>, n: nat, b: Block)
    requires n <= |bs| && b in bs
    ensures b in bs[..n] || b in bs[n..]
  {
    assert bs == bs[..n] + bs[n..];
  }

  lemma RegisterKeeps(m: Manager, l1Head: uint64)
    requires m.Shape() && m.current.Some?
    ensures Keeps(m, RegisterL1Block(m, l1Head))
  {
  }

  lemma CreateFramesKeeps(m: Manager, a: Answers)
    requires m.Shape() && m.current.Some?
    ensures Keeps(m, CreateFrames(m, a).0)
  {
    hide OutputFrames;
    var b := m.channels[m.current.value].builder;
    OutputsKeepBlocks(b, a.closes, if b.full.Some? then a.final else a.ready);
  }

  lemma OutputsKeepBlocks(b: Builder, closes: bool, out: Output)
    ensures OutputFrames(b, closes, out).0.blocks == b.blocks
  {
    hide EmitAll;
    EmitGrows(b, out);
  }

  lemma RequestKeepsNoLoss(m: Manager, l1Head: uint64, a: Answers)
    requires m.Shape() && NoLoss(m)
    ensures NoLoss(RequestTx(m, l1Head, a).0)
  {
    hide NextTxData, EnsureChannel, ProcessBlocks, RegisterL1Block, CreateFrames, Manager.Shape, NoLoss, Keeps, FirstWithData;
    var first := FirstWithData(m, 0);
    if first.Some? {
      FirstInRange(m, first.value);
      NextKeeps(m, first.value);
      KeepsNoLoss(m, RequestTx(m, l1Head, a).0);
    } else if !m.closed && m.blocks != [] {
      var (m1, open) := EnsureChannel(m, a.newID);
      EnsureKeeps(m, a.newID);
      KeepsNoLoss(m, m1);
      if open {
        BuildKeepsNoLoss(m1, l1Head, a);
      }
    }
  }

  lemma FirstInRange(m: Manager, i: nat)
    requires m.Shape() && i in m.queue
    ensures i < |m.channels|
  {
  }

  lemma BuildKeepsNoLoss(m: Manager, l1Head: uint64, a: Answers)
    requires m.Shape() && NoLoss(m) && m.current.Some?
    ensures NoLoss(BuildTx(m, l1Head, a).0)
  {
    hide NextTxData, ProcessBlocks, RegisterL1Block, CreateFrames, NoLoss, Keeps;
    var (m1, added) := ProcessBlocks(m, a.adds);
    ProcessKeepsNoLoss(m, a.adds);
    if added {
      var m2 := RegisterL1Block(m1, l1Head);
      RegisterKeeps(m1, l1Head);
      KeepsNoLoss(m1, m2);
      var (m3, output) := CreateFrames(m2, a);
      CreateFramesKeeps(m2, a);
      KeepsNoLoss(m2, m3);
      if output {
        NextKeeps(m3, m3.current.value);
        KeepsNoLoss(m3, NextTxData(m3, m3.current.value).0);
      }
    }
  }

  lemma ServeKeepsOpen(m: Manager, c: Call)
    requires m.Shape()
    ensures Serve(m, c).closed == m.closed
  {
    hide EmitAll, AddBlocks, TimedOut, Manager.Shape, FirstWithData, RemoveFirst, AddBlock, UpdateTimeout, TakeTx, TxFailed, HasTxData;
  }

  lemma ServeKeepsNoLoss(m: Manager, c: Call)
    requires m.Shape() && NoLoss(m) && !m.closed
    ensures NoLoss(Serve(m, c)) && !Serve(m, c).closed
  {
    ServeKeepsOpen(m, c);
    hide NoLoss, RequestTx, FailTx, ConfirmTx, AddL2Block;
    match c
    case CallAdd(block) => AddKeepsNoLoss(m, block);
    case CallTxData(l1Head, answers) => RequestKeepsNoLoss(m, l1Head, answers);
    case CallFailed(id) => FailKeepsNoLoss(m, id);
    case CallConfirmed(id, l1Block) => ConfirmKeepsNoLoss(m, id, l1Block);
  }

  /** From a cleared manager on, in any order of requests, failures, confirmations, timeouts and errors, every block
      taken in is waiting, in a queued channel, or in a channel reported fully submitted. */
  lemma {:induction false} RunKeepsNoLoss(m: Manager, cs: seq<Call>)
    requires m.Shape() && NoLoss(m) && !m.closed
    ensures NoLoss(ServeAll(m, cs)) && !ServeAll(m, cs).closed
    decreases |cs|
  {
    hide NoLoss, Serve;
    if cs != [] {
      ServeKeepsNoLoss(m, cs[0]);
      RunKeepsNoLoss(Serve(m, cs[0]), cs[1..]);
    }
  }

  // ----- every transaction is routed to its channel -----

  /** The manager's index and the channels agree on which transactions are in flight. */
  ghost predicate Routed(m: Manager) {
    forall i: nat, id :: i < |m.channels| ==> (id in m.channels[i].pending <==> id in m.txChannels && m.txChannels[id] == i)
  }

  predicate DistinctIds(m: Manager) {
    forall i, j :: 0 <= i < j < |m.channels| ==> m.channels[i].builder.id != m.channels[j].builder.id
  }

  ghost predicate AllSound(m: Manager) {
    forall i :: 0 <= i < |m.channels| ==> Sound(m.channels[i])
  }

  ghost predicate Consistent(m: Manager)
    ensures Consistent(m) ==> m.Shape()
  {
    m.Shape() && AllSound(m) && DistinctIds(m) && Routed(m)
  }

  function Count(out: Output): nat {
    match out
    case NotReady => 0
    case OutError => 0
    case Last(_) => 1
    case More(_, rest) => 1 + Count(rest)
  }

  /** New channels get an unused identifier, and no channel gets more than 2^16 frames. */
  predicate Reasonable(m: Manager, a: Answers) {
    && (a.newID.Some? ==> forall i :: 0 <= i < |m.channels| ==> m.channels[i].builder.id != a.newID.value)
    && Count(a.ready) <= MAX_FRAMES && Count(a.final) <= MAX_FRAMES
    && forall i :: 0 <= i < |m.channels| ==>
                     |m.channels[i].builder.produced| + Count(a.ready) <= MAX_FRAMES &&
                     |m.channels[i].builder.produced| + Count(a.final) <= MAX_FRAMES
  }

  lemma {:induction false} EmitCounts(b: Builder, out: Output)
    ensures |EmitAll(b, out).0.produced| <= |b.produced| + Count(out)
    decreases out
  {
    match out
    case NotReady =>
    case OutError =>
    case Last(data) =>
    case More(data, rest) => EmitCounts(Emit(b, data), rest);
  }

  lemma OutputsCount(b: Builder, closes: bool, out: Output)
    ensures |OutputFrames(b, closes, out).0.produced| <= |b.produced| + Count(out)
  {
    hide EmitAll;
    EmitCounts(b, out);
  }

  lemma SetBuilderConsistent(m: Manager, i: nat, b: Builder)
    requires Consistent(m) && i < |m.channels| && b.id == m.channels[i].builder.id
    requires Sound(m.channels[i].(builder := b))
    ensures Consistent(SetBuilder(m, i, b))
  {
    hide Sound;
    var m' := SetBuilder(m, i, b);
    forall j: nat, id | j < |m'.channels|
      ensures id in m'.channels[j].pending <==> id in m'.txChannels && m'.txChannels[id] == j
    {
      assert m'.channels[j].pending == m.channels[j].pending;
    }
  }

  lemma EnsureReasonable(m: Manager, a: Answers)
    requires m.Shape() && Reasonable(m, a)
    ensures Reasonable(EnsureChannel(m, a.newID).0, a.(newID := None))
  {
  }

  lemma EnsureConsistent(m: Manager, a: Answers)
    requires Consistent(m) && Reasonable(m, a)
    ensures var m' := EnsureChannel(m, a.newID).0; Consistent(m') && Reasonable(m', a.(newID := None))
  {
    hide Sound;
    EnsureReasonable(m, a);
    var m' := EnsureChannel(m, a.newID).0;
    if m' != m {
      NewIsSound(m.cfg, a.newID.value, m.l1OriginLastClosed);
      forall i: nat, id | i < |m'.channels|
        ensures id in m'.channels[i].pending <==> id in m'.txChannels && m'.txChannels[id] == i
      {
        if i < |m.channels| { assert m'.channels[i] == m.channels[i]; }
      }
    }
  }

  /** Two channels never use the same key. */
  lemma KeyNamesChannel(m: Manager, i: nat, j: nat, id: string)
    requires AllSound(m) && i < |m.channels| && j < |m.channels| && id in m.channels[j].pending
    requires HasTxData(m.channels[i]) && TxKey(NextTx(m.channels[i])) == id
    ensures m.channels[i].builder.id == m.channels[j].builder.id
  {
    hide FramesIn, TxString, HasTxData, NextTx;
    var c, d := m.channels[i], m.channels[j];
    var tx, other := NextTx(c), d.pending[id];
    assert Sound(c) && Sound(d);
    NextProduced(c);
    TxProduced(d, d.pending, id);
    TxStringInjective(NO_CHANNEL, IdsOf(tx), IdsOf(other));
    assert IdsOf(tx)[0] == tx[0].id && IdsOf(other)[0] == other[0].id;
    ProducedHere(c.builder, tx[0]);
    ProducedHere(d.builder, other[0]);
  }

  lemma ProducedHere(b: Builder, f: Frame)
    requires Numbered(b) && f in b.produced
    ensures f.id.chID == b.id
  {
  }

  lemma NextProduced(c: Chan)
    requires Sound(c) && HasTxData(c)
    ensures NextTx(c) != [] && NextTx(c)[0] in c.builder.produced
  {
    hide FramesIn, TxKey, Numbered;
    BatchNotEmpty(c);
    QueueProduced(c, 0);
  }

  lemma NextConsistent(m: Manager, i: nat)
    requires Consistent(m) && i < |m.channels|
    ensures Consistent(NextTxData(m, i).0)
  {
    hide Sound, TxKey, HasTxData, NextTx;
    var c := m.channels[i];
    if HasTxData(c) {
      var m' := NextTxData(m, i).0;
      TakeKeepsSound(c);
      forall j: nat | j < |m.channels| && TxKey(NextTx(c)) in m.channels[j].pending ensures j == i {
        KeyNamesChannel(m, i, j, TxKey(NextTx(c)));
      }
      forall j: nat, id | j < |m'.channels|
        ensures id in m'.channels[j].pending <==> id in m'.txChannels && m'.txChannels[id] == j
      {
        assert id in m.channels[j].pending <==> id in m.txChannels && m.txChannels[id] == j;
      }
    }
  }

  /** Removing a transaction from its channel and from the index. */
  lemma UnroutedConsistent(m: Manager, id: string, c: Chan, m': Manager)
    requires Consistent(m) && id in m.txChannels && m'.Shape()
    requires var i := m.txChannels[id];
             m'.channels == m.channels[i := c] && m'.txChannels == m.txChannels - {id} &&
             Sound(c) && c.builder.id == m.channels[i].builder.id && c.pending == m.channels[i].pending - {id}
    ensures Consistent(m')
  {
    hide Sound;
    forall j: nat, k | j < |m'.channels|
      ensures k in m'.channels[j].pending <==> k in m'.txChannels && m'.txChannels[k] == j
    {
      assert k in m.channels[j].pending <==> k in m.txChannels && m.txChannels[k] == j;
    }
  }

  lemma FailConsistent(m: Manager, id: string)
    requires Consistent(m)
    ensures Consistent(FailTx(m, id))
  {
    hide Sound, RemoveFirst;
    if id in m.txChannels {
      var c := m.channels[m.txChannels[id]];
      FailedKeepsSound(c, id);
      UnroutedConsistent(m, id, TxFailed(c, id), FailTx(m, id));
    }
  }

  lemma ConfirmConsistent(m: Manager, id: string, block: uint64)
    requires Consistent(m)
    ensures Consistent(ConfirmTx(m, id, block))
  {
    hide Sound, RemoveFirst, TimedOut;
    if id in m.txChannels {
      var c := m.channels[m.txChannels[id]];
      assert id in c.pending;
      ConfirmKeepsSound(c, id, block);
      UnroutedConsistent(m, id, Confirm(c, id, block), ConfirmTx(m, id, block));
    }
  }

  lemma BuildConsistent(m: Manager, l1Head: uint64, a: Answers)
    requires Consistent(m) && m.current.Some? && Reasonable(m, a.(newID := None))
    ensures Consistent(BuildTx(m, l1Head, a).0)
  {
    hide Sound, AddBlocks, EmitAll, Consistent;
    var i := m.current.value;
    var c := m.channels[i];
    assert Sound(c) && i < |m.channels| by { ConsistentAt(m, i); }
    var (b1, n, ok) := AddBlocks(m.cfg, c.builder, m.blocks, 0, a.adds);
    SameFramesSound(c, b1);
    SetBuilderConsistent(m, i, b1);
    var (m1, added) := ProcessBlocks(m, a.adds);
    if added {
      OnlyBlocks(SetBuilder(m, i, b1), m1);
      var c1 := m1.channels[i];
      SameFramesSound(c1, CheckTimeout(c1.builder, l1Head));
      SetBuilderConsistent(m1, i, CheckTimeout(c1.builder, l1Head));
      FramesConsistent(RegisterL1Block(m1, l1Head), a);
      var (m3, output) := CreateFrames(RegisterL1Block(m1, l1Head), a);
      if output {
        NextConsistent(m3, i);
      }
    }
  }

  lemma ConsistentAt(m: Manager, i: nat)
    requires Consistent(m) && (i < |m.channels| || m.current == Some(i))
    ensures i < |m.channels| && Sound(m.channels[i])
  {
    hide Sound;
  }

  lemma OnlyBlocks(m: Manager, m': Manager)
    requires Consistent(m) && m' == m.(blocks := m'.blocks)
    ensures Consistent(m')
  {
    hide Sound;
  }

  lemma FramesConsistent(m: Manager, a: Answers)
    requires Consistent(m) && m.current.Some? && m.current.value < |m.channels|
    requires var b := m.channels[m.current.value].builder;
             |b.produced| + Count(a.ready) <= MAX_FRAMES && |b.produced| + Count(a.final) <= MAX_FRAMES
    ensures Consistent(CreateFrames(m, a).0)
  {
    hide Sound, EmitAll;
    var i := m.current.value;
    var c := m.channels[i];
    var out := if c.builder.full.Some? then a.final else a.ready;
    EmitCounts(c.builder, out);
    OutputsKeepsSound(c, a.closes, out);
    EmitGrows(c.builder, out);
    var (b1, ok) := OutputFrames(c.builder, a.closes, out);
    SetBuilderConsistent(m, i, b1);
    var m' := CreateFrames(m, a).0;
    assert m' == SetBuilder(m, i, b1).(l1OriginLastClosed := m'.l1OriginLastClosed);
  }

  lemma RequestConsistent(m: Manager, l1Head: uint64, a: Answers)
    requires Consistent(m) && Reasonable(m, a)
    ensures Consistent(RequestTx(m, l1Head, a).0)
  {
    hide NextTxData, EnsureChannel, BuildTx, Reasonable, Manager.Shape, AllSound, Routed, DistinctIds, FirstWithData;
    var first := FirstWithData(m, 0);
    if first.Some? {
      FirstInRange(m, first.value);
      NextConsistent(m, first.value);
    } else if !m.closed && m.blocks != [] {
      EnsureConsistent(m, a);
      var (m1, open) := EnsureChannel(m, a.newID);
      if open {
        BuildConsistent(m1, l1Head, a);
      }
    }
  }

  predicate ReasonableRun(m: Manager, cs: seq<Call>)
    requires m.Shape()
    decreases |cs|
  {
    cs == [] || ((cs[0].CallTxData? ==> Reasonable(m, cs[0].answers)) && ReasonableRun(Serve(m, cs[0]), cs[1..]))
  }

  lemma ServeConsistent(m: Manager, c: Call)
    requires Consistent(m) && (c.CallTxData? ==> Reasonable(m, c.answers))
    ensures Consistent(Serve(m, c))
  {
    hide RequestTx, FailTx, ConfirmTx, Sound;
    match c
    case CallAdd(block) =>
    case CallTxData(l1Head, answers) => RequestConsistent(m, l1Head, answers);
    case CallFailed(id) => FailConsistent(m, id);
    case CallConfirmed(id, l1Block) => ConfirmConsistent(m, id, l1Block);
  }

  /** In every run, the frames of all channels are conserved, and a failure or confirmation of a transaction reaches
      exactly the channel that has it in flight. */
  lemma {:induction false} RunConsistent(m: Manager, cs: seq<Call>)
    requires Consistent(m) && ReasonableRun(m, cs)
    ensures Consistent(ServeAll(m, cs))
    decreases |cs|
  {
    hide Consistent, Serve, Reasonable;
    if cs != [] {
      ServeConsistent(m, cs[0]);
      RunConsistent(Serve(m, cs[0]), cs[1..]);
    }
  }
}
