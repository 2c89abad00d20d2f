/** Frames are neither lost nor duplicated, and what "fully submitted" means. */
module ChannelLaws {
  import opened Words
  import opened TxIds
  import opened ChannelSpec

  // ----- frames in a set of transactions -----

  /** All frames of all transactions. */
  ghost function FramesIn(txs: map<string, TxData>): multiset<Frame>
    decreases |txs|
  {
    if txs == map[] then multiset{}
    else
      var k :| k in txs;
      FramesIn(txs - {k}) + multiset(txs[k])
  }

  lemma Smaller(txs: map<string, TxData>, k: string)
    requires k in txs
    ensures |txs - {k}| < |txs|
  {
    assert (txs - {k}).Keys == txs.Keys - {k};
  }

  /** Whichever transaction is taken out first. */
  lemma {:induction false} FramesWithout(txs: map<string, TxData>, k: string)
    requires k in txs
    ensures FramesIn(txs) == FramesIn(txs - {k}) + multiset(txs[k])
    decreases |txs|
  {
    var x :| x in txs && FramesIn(txs) == FramesIn(txs - {x}) + multiset(txs[x]);
    if x != k {
      Smaller(txs, x);
      Smaller(txs, k);
      FramesWithout(txs - {x}, k);
      FramesWithout(txs - {k}, x);
      assert txs - {x} - {k} == txs - {k} - {x};
    }
  }

  lemma FramesWith(txs: map<string, TxData>, k: string, tx: TxData)
    requires k !in txs
    ensures FramesIn(txs[k := tx]) == FramesIn(txs) + multiset(tx)
  {
    FramesWithout(txs[k := tx], k);
    assert txs[k := tx] - {k} == txs;
  }

  // ----- conservation -----

  /** Every frame produced is in the queue, in a pending or in a confirmed transaction, counting repetitions. */
  ghost predicate Conserved(c: Chan) {
    multiset(c.builder.frames) + FramesIn(c.pending) + FramesIn(c.sent) == multiset(c.builder.produced)
  }

  /** Frames carry the channel and consecutive numbers, fewer than 2^16 of them. */
  predicate Numbered(b: Builder) {
    && |b.produced| <= MAX_FRAMES
    && forall n :: 0 <= n < |b.produced| ==> b.produced[n].id == FrameID(b.id, n % MAX_FRAMES)
  }

  predicate KeysMatch(txs: map<string, TxData>) {
    forall k :: k in txs ==> txs[k] != [] && TxKey(txs[k]) == k
  }

  ghost predicate Sound(c: Chan) {
    Conserved(c) && Numbered(c.builder) && KeysMatch(c.pending) && KeysMatch(c.sent) && c.sent.Keys == c.confirmed.Keys
  }

  lemma {:induction false} DistinctOnce(s: seq<Frame>, f: Frame)
    requires forall i, j :: 0 <= i < j < |s| ==> s[i] != s[j]
    ensures multiset(s)[f] <= 1
  {
    if s != [] {
      DistinctOnce(s[1..], f);
      assert s == [s[0]] + s[1..];
      if s[0] == f { assert f !in s[1..]; }
    }
  }

  /** So every frame is in exactly one place. */
  lemma ExactlyOnePlace(c: Chan, f: Frame)
    requires Conserved(c) && Numbered(c.builder)
    ensures multiset(c.builder.frames)[f] + FramesIn(c.pending)[f] + FramesIn(c.sent)[f]
            == if f in c.builder.produced then 1 else 0
  {
    var s := c.builder.produced;
    forall i, j | 0 <= i < j < |s| ensures s[i] != s[j] {
      assert i % MAX_FRAMES == i && j % MAX_FRAMES == j;
    }
    DistinctOnce(s, f);
    assert f in s <==> f in multiset(s);
    assert multiset(s)[f] == multiset(c.builder.frames)[f] + FramesIn(c.pending)[f] + FramesIn(c.sent)[f];
  }

  lemma CountsFrame(txs: map<string, TxData>, k: string, i: nat)
    requires k in txs && i < |txs[k]|
    ensures FramesIn(txs)[txs[k][i]] >= 1
  {
    FramesWithout(txs, k);
    assert txs[k][i] in multiset(txs[k]);
  }

  /** Frames with one identifier are one frame. */
  lemma SameId(b: Builder, f: Frame, g: Frame)
    requires Numbered(b) && f in b.produced && g in b.produced && f.id == g.id
    ensures f == g
  {
    var i :| 0 <= i < |b.produced| && b.produced[i] == f;
    var j :| 0 <= j < |b.produced| && b.produced[j] == g;
    assert i % MAX_FRAMES == i && j % MAX_FRAMES == j;
  }

  /** All frames of a transaction were produced by the channel. */
  lemma TxProduced(c: Chan, txs: map<string, TxData>, k: string)
    requires Conserved(c) && Numbered(c.builder) && (txs == c.pending || txs == c.sent) && k in txs
    ensures forall i :: 0 <= i < |txs[k]| ==> txs[k][i] in c.builder.produced
  {
    forall i | 0 <= i < |txs[k]| ensures txs[k][i] in c.builder.produced {
      CountsFrame(txs, k, i);
      assert multiset(c.builder.produced)[txs[k][i]] >= 1;
    }
  }

  lemma QueueProduced(c: Chan, i: nat)
    requires Conserved(c) && i < |c.builder.frames|
    ensures c.builder.frames[i] in c.builder.produced
  {
    assert c.builder.frames[i] in multiset(c.builder.frames);
    assert multiset(c.builder.produced)[c.builder.frames[i]] >= 1;
  }

  lemma SplitQueue(s: seq<Frame>, n: nat)
    requires n <= |s|
    ensures multiset(s) == multiset(s[..n]) + multiset(s[n..])
  {
    assert s == s[..n] + s[n..];
  }

  lemma BatchNotEmpty(c: Chan)
    requires HasTxData(c)
    ensures NextTx(c) != []
  {
    assert Batch(c) > 0;
  }

  /** Transactions with one key start with one frame. */
  lemma SameKeySameHead(b: Builder, a: TxData, t: TxData)
    requires Numbered(b) && a != [] && t != [] && TxKey(a) == TxKey(t)
    requires forall i :: 0 <= i < |a| ==> a[i] in b.produced
    requires forall i :: 0 <= i < |t| ==> t[i] in b.produced
    ensures a[0] == t[0]
  {
    hide TxString;
    TxStringInjective(NO_CHANNEL, IdsOf(a), IdsOf(t));
    assert IdsOf(a)[0] == a[0].id && IdsOf(t)[0] == t[0].id;
    SameId(b, a[0], t[0]);
  }

  /** The key of the next transaction is not in use. */
  lemma KeyNotInUse(c: Chan)
    requires Sound(c) && HasTxData(c)
    ensures TxKey(NextTx(c)) !in c.pending
  {
    hide TxKey, FramesIn, Numbered, IdsOf;
    var tx := NextTx(c);
    var k := TxKey(tx);
    BatchNotEmpty(c);
    assert tx[0] == c.builder.frames[0] && tx[0] in multiset(c.builder.frames);
    if k in c.pending {
      TxProduced(c, c.pending, k);
      forall i | 0 <= i < |tx| ensures tx[i] in c.builder.produced { QueueProduced(c, i); }
      SameKeySameHead(c.builder, tx, c.pending[k]);
      CountsFrame(c.pending, k, 0);
      ExactlyOnePlace(c, tx[0]);
      assert false;
    }
  }

  /** A pending transaction has not been confirmed. */
  lemma PendingNotSent(c: Chan, id: string)
    requires Sound(c) && id in c.pending
    ensures id !in c.sent
  {
    hide TxKey, FramesIn, Numbered, IdsOf;
    if id in c.sent {
      TxProduced(c, c.pending, id);
      TxProduced(c, c.sent, id);
      SameKeySameHead(c.builder, c.pending[id], c.sent[id]);
      CountsFrame(c.pending, id, 0);
      CountsFrame(c.sent, id, 0);
      ExactlyOnePlace(c, c.pending[id][0]);
      assert false;
    }
  }

  // ----- every operation keeps it -----

  lemma TakeKeepsSound(c: Chan)
    requires Sound(c) && HasTxData(c)
    ensures Sound(TakeTx(c))
  {
    hide TxKey, FramesIn, Batch;
    KeyNotInUse(c);
    FramesWith(c.pending, TxKey(NextTx(c)), NextTx(c));
    SplitQueue(c.builder.frames, Batch(c));
    BatchNotEmpty(c);
  }

  lemma FailedKeepsSound(c: Chan, id: string)
    requires Sound(c)
    ensures Sound(TxFailed(c, id))
  {
    hide TxKey, FramesIn;
    if id in c.pending {
      FramesWithout(c.pending, id);
    }
  }

  lemma ConfirmKeepsSound(c: Chan, id: string, block: uint64)
    requires Sound(c) && id in c.pending
    ensures Sound(Confirm(c, id, block))
  {
    hide TxKey, FramesIn;
    FramesWithout(c.pending, id);
    PendingNotSent(c, id);
    FramesWith(c.sent, id, c.pending[id]);
  }

  lemma EmitOneKeepsSound(c: Chan, data: seq<byte>)
    requires Sound(c) && |c.builder.produced| < MAX_FRAMES
    ensures Sound(c.(builder := Emit(c.builder, data)))
  {
    hide TxKey, FramesIn, Numbered, KeysMatch;
    EmitNumbered(c.builder, data);
    var f := Emit(c.builder, data).produced[|c.builder.produced|];
    assert multiset(c.builder.frames + [f]) == multiset(c.builder.frames) + multiset{f};
    assert multiset(c.builder.produced + [f]) == multiset(c.builder.produced) + multiset{f};
  }

  lemma EmitNumbered(b: Builder, data: seq<byte>)
    requires Numbered(b) && |b.produced| < MAX_FRAMES
    ensures Numbered(Emit(b, data))
  {
  }

  lemma {:induction false} EmitKeepsSound(c: Chan, out: Output)
    requires Sound(c) && |EmitAll(c.builder, out).0.produced| <= MAX_FRAMES
    ensures Sound(c.(builder := EmitAll(c.builder, out).0))
    decreases out
  {
    hide Sound, Emit;
    match out
    case NotReady =>
    case OutError =>
    case Last(data) =>
      EmitOneGrows(c.builder, data);
      EmitOneKeepsSound(c, data);
      SameFramesSound(c.(builder := Emit(c.builder, data)), Emit(c.builder, data).(ended := true));
    case More(data, rest) =>
      EmitOneGrows(c.builder, data);
      EmitGrows(Emit(c.builder, data), rest);
      EmitOneKeepsSound(c, data);
      EmitKeepsSound(c.(builder := Emit(c.builder, data)), rest);
  }

  lemma EmitOneGrows(b: Builder, data: seq<byte>)
    ensures |Emit(b, data).produced| == |b.produced| + 1
  {
  }

  lemma {:induction false} EmitGrows(b: Builder, out: Output)
    ensures var b' := EmitAll(b, out).0;
            |b'.produced| >= |b.produced| && b'.blocks == b.blocks && b'.id == b.id
    decreases out
  {
    match out
    case NotReady =>
    case OutError =>
    case Last(data) =>
    case More(data, rest) => EmitGrows(Emit(b, data), rest);
  }

  /** Soundness is about the frames only. */
  lemma SameFramesSound(c: Chan, b: Builder)
    requires Sound(c) && b.frames == c.builder.frames && b.produced == c.builder.produced && b.id == c.builder.id
    ensures Sound(c.(builder := b))
  {
    hide FramesIn, TxKey;
  }

  lemma OutputsKeepsSound(c: Chan, closes: bool, out: Output)
    requires Sound(c) && |OutputFrames(c.builder, closes, out).0.produced| <= MAX_FRAMES
    ensures Sound(c.(builder := OutputFrames(c.builder, closes, out).0))
  {
    hide Sound, EmitAll;
    if c.builder.full.None? || closes {
      EmitKeepsSound(c, out);
      SameFramesSound(c.(builder := EmitAll(c.builder, out).0), OutputFrames(c.builder, closes, out).0);
    } else {
      SameFramesSound(c, OutputFrames(c.builder, closes, out).0);
    }
  }

  lemma ApplyKeepsSound(c: Chan, op: Op)
    requires Sound(c) && |Apply(c, op).builder.produced| <= MAX_FRAMES
    ensures Sound(Apply(c, op))
  {
    hide Sound, EmitAll, TimedOut;
    match op
    case Add(block, answer) => SameFramesSound(c, AddBlock(c.cfg, c.builder, block, answer).0);
    case Check(l1Block) => SameFramesSound(c, CheckTimeout(c.builder, l1Block));
    case Outputs(closes, out) => OutputsKeepsSound(c, closes, out);
    case Take => if HasTxData(c) { TakeKeepsSound(c); }
    case Failed(id) => FailedKeepsSound(c, id);
    case Confirmed(id, l1Block) => if id in c.pending { ConfirmKeepsSound(c, id, l1Block); }
    case Close => SameFramesSound(c, Apply(c, op).builder);
  }

  /** Only output produces frames. */
  lemma SilentKeepsSound(c: Chan, op: Op)
    requires Sound(c) && !op.Outputs?
    ensures Sound(Apply(c, op))
  {
    ApplyKeepsSound(c, op);
  }

  lemma ApplyGrows(c: Chan, op: Op)
    ensures |Apply(c, op).builder.produced| >= |c.builder.produced| && Apply(c, op).cfg == c.cfg
  {
    if op.Outputs? { EmitGrows(c.builder, op.out); }
  }

  lemma {:induction false} RunGrows(c: Chan, ops: seq<Op>)
    ensures |Run(c, ops).builder.produced| >= |c.builder.produced|
    decreases |ops|
  {
    if ops != [] {
      ApplyGrows(c, ops[0]);
      RunGrows(Apply(c, ops[0]), ops[1..]);
    }
  }

  /** In every run of a channel, in any order of sends, failures and confirmations, the frames are conserved. */
  lemma {:induction false} RunKeepsSound(c: Chan, ops: seq<Op>)
    requires Sound(c) && |Run(c, ops).builder.produced| <= MAX_FRAMES
    ensures Sound(Run(c, ops))
    decreases |ops|
  {
    hide Sound, Apply;
    if ops != [] {
      RunGrows(Apply(c, ops[0]), ops[1..]);
      ApplyKeepsSound(c, ops[0]);
      RunKeepsSound(Apply(c, ops[0]), ops[1..]);
    }
  }

  lemma NewIsSound(cfg: ChannelConfig, id: ChannelID, l1Origin: uint64)
    ensures Sound(NewChannel(cfg, id, l1Origin))
  {
  }

  /** After any run of a new channel, a confirmation reports it done, without handing blocks back, only if it is full
      and every frame it ever produced is in a confirmed transaction; and then all those transactions were included
      within the channel timeout. */
  lemma DoneMeansSubmitted(cfg: ChannelConfig, chID: ChannelID, l1Origin: uint64, ops: seq<Op>, id: string, block: uint64)
    requires |Run(NewChannel(cfg, chID, l1Origin), ops).builder.produced| <= MAX_FRAMES
    ensures var (c, done, blocks) := TxConfirmed(Run(NewChannel(cfg, chID, l1Origin), ops), id, block);
            done && !TimedOut(c) ==>
              && c.builder.full.Some? && blocks == []
              && FramesIn(c.sent) == multiset(c.builder.produced)
              && c.sent.Keys == c.confirmed.Keys
              && forall x, y :: x in c.confirmed && y in c.confirmed ==> c.confirmed[x] < c.confirmed[y] + c.cfg.channelTimeout
  {
    NewIsSound(cfg, chID, l1Origin);
    RunKeepsSound(NewChannel(cfg, chID, l1Origin), ops);
    var c := Run(NewChannel(cfg, chID, l1Origin), ops);
    if id in c.pending {
      ConfirmKeepsSound(c, id, block);
    }
  }

  /** A failed transaction returns its frames to the same channel, so they never reach a wrong one. */
  lemma FailedFramesBelong(c: Chan, id: string)
    requires Sound(c) && id in c.pending
    ensures forall i :: 0 <= i < |c.pending[id]| ==> c.pending[id][i].id.chID == c.builder.id
  {
    TxProduced(c, c.pending, id);
  }

  // ----- deadlines -----

  function Deadlines(b: Builder, deadlines: seq<uint64>, reason: Reason): Builder {
    if deadlines == [] then b
    else UpdateTimeout(Deadlines(b, deadlines[..|deadlines| - 1], reason), deadlines[|deadlines| - 1], reason)
  }

  /** The position after the last deadline of 0. */
  function SinceZero(deadlines: seq<uint64>): (k: nat)
    ensures k <= |deadlines|
  {
    if deadlines == [] then 0
    else if deadlines[|deadlines| - 1] == 0 then |deadlines|
    else SinceZero(deadlines[..|deadlines| - 1])
  }

  /** The timeout is the earliest deadline since the last one of 0, which makes all before it forgotten. */
  lemma {:induction false} TimeoutIsEarliest(b: Builder, deadlines: seq<uint64>, reason: Reason)
    ensures var k := SinceZero(deadlines);
            Earliest(Deadlines(b, deadlines, reason).timeout, if k == 0 then b.timeout else 0, deadlines[k..])
  {
    hide UpdateTimeout, Earliest;
    if deadlines == [] {
      NoDeadline(b.timeout);
    } else {
      var before, last := deadlines[..|deadlines| - 1], deadlines[|deadlines| - 1];
      var b1, k := Deadlines(b, before, reason), SinceZero(deadlines);
      if last == 0 {
        assert deadlines[k..] == [];
        ZeroForgets(b1, reason);
      } else {
        TimeoutIsEarliest(b, before, reason);
        assert deadlines[k..] == before[k..] + [last];
        OneMore(b1, if k == 0 then b.timeout else 0, before[k..], last, reason);
      }
    }
  }

  /** The least of the deadlines and of `start`, 0 standing for none. */
  ghost predicate Earliest(t: uint64, start: uint64, deadlines: seq<uint64>) {
    && (t == start || t in deadlines)
    && (start > 0 ==> 0 < t <= start)
    && forall i :: 0 <= i < |deadlines| ==> 0 < t <= deadlines[i]
  }

  lemma NoDeadline(t: uint64)
    ensures Earliest(t, t, [])
  {
  }

  lemma ZeroForgets(b: Builder, reason: Reason)
    ensures Earliest(UpdateTimeout(b, 0, reason).timeout, 0, [])
  {
  }

  lemma OneMore(b: Builder, start: uint64, deadlines: seq<uint64>, d: uint64, reason: Reason)
    requires Earliest(b.timeout, start, deadlines) && d > 0
    ensures Earliest(UpdateTimeout(b, d, reason).timeout, start, deadlines + [d])
  {
  }

  /** The next frame gets a number of its own exactly if fewer than 2^16 frames were produced. */
  lemma NumberIsFreshIff(b: Builder, data: seq<byte>)
    requires forall n :: 0 <= n < |b.produced| ==> b.produced[n].id == FrameID(b.id, n % MAX_FRAMES)
    ensures var f := Emit(b, data).produced[|b.produced|];
            (forall n :: 0 <= n < |b.produced| ==> b.produced[n].id != f.id) <==> |b.produced| < MAX_FRAMES
  {
    var last := |b.produced|;
    if last < MAX_FRAMES {
      forall n | 0 <= n < last ensures n % MAX_FRAMES != last % MAX_FRAMES {
      }
    } else {
      assert b.produced[last - MAX_FRAMES].id == FrameID(b.id, (last - MAX_FRAMES) % MAX_FRAMES);
    }
  }
}
