/** The replicated unsafe head of the conductor (op-conductor/consensus/raft_fsm.go). */
module ConductorFsm {
  import opened Words
  import opened Merkle

  datatype Payload = Payload(hash: Bytes32, number: uint64, body: seq<byte>)

  /** The serialization of payloads, known only by what it promises. */
  datatype Codec = Codec(marshal: Payload -> seq<byte>, unmarshal: seq<byte> -> Option<Payload>)

  ghost predicate RoundTrips(c: Codec) {
    forall p :: c.unmarshal(c.marshal(p)) == Some(p)
  }

  /** The payload of a log entry; empty entries and ones that do not decode are refused. */
  function Decoded(c: Codec, data: seq<byte>): Option<Payload> {
    if data == [] then None else c.unmarshal(data)
  }

  function ApplyEntry(c: Codec, head: Option<Payload>, data: seq<byte>): Option<Payload> {
    match Decoded(c, data)
    case None => head
    case Some(p) => if head.None? || head.value.number < p.number then Some(p) else head
  }

  /** An entry replaces the head exactly if it is not empty, decodes, and is of a greater number than the head, if any. */
  lemma EntryReplacesIff(c: Codec, head: Option<Payload>, data: seq<byte>)
    ensures data != [] && c.unmarshal(data).Some? && (head.Some? ==> head.value.number < c.unmarshal(data).value.number) ==>
              ApplyEntry(c, head, data) == c.unmarshal(data)
    ensures !(data != [] && c.unmarshal(data).Some? && (head.Some? ==> head.value.number < c.unmarshal(data).value.number)) ==>
              ApplyEntry(c, head, data) == head
  {
  }

  function Replay(c: Codec, head: Option<Payload>, log: seq<seq<byte>>): Option<Payload>
    decreases |log|
  {
    if log == [] then head else Replay(c, ApplyEntry(c, head, log[0]), log[1..])
  }

  /** `head` is the first of the payloads in the log with the greatest block number. */
  ghost predicate FirstGreatest(c: Codec, log: seq<seq<byte>>, head: Option<Payload>) {
    match head
    case None => forall i :: 0 <= i < |log| ==> Decoded(c, log[i]).None?
    case Some(h) =>
      exists k: nat :: IsFirstGreatest(c, log, h, k)
  }

  ghost predicate IsFirstGreatest(c: Codec, log: seq<seq<byte>>, h: Payload, k: nat) {
    && k < |log| && Decoded(c, log[k]) == Some(h)
    && forall i :: 0 <= i < |log| && Decoded(c, log[i]).Some? ==>
                     Decoded(c, log[i]).value.number <= h.number && (i < k ==> Decoded(c, log[i]).value.number < h.number)
  }

  lemma {:induction false} ReplayConcat(c: Codec, head: Option<Payload>, a: seq<seq<byte>>, b: seq<seq<byte>>)
    ensures Replay(c, head, a + b) == Replay(c, Replay(c, head, a), b)
    decreases |a|
  {
    if a == [] {
      assert a + b == b;
    } else {
      assert (a + b)[1..] == a[1..] + b;
      ReplayConcat(c, ApplyEntry(c, head, a[0]), a[1..], b);
    }
  }

  /** Replaying a log from nothing finds the first payload of greatest number. */
  lemma {:induction false} ReplayFindsFirstGreatest(c: Codec, log: seq<seq<byte>>)
    ensures FirstGreatest(c, log, Replay(c, None, log))
    decreases |log|
  {
    if log != [] {
      var n := |log| - 1;
      var front, head := log[..n], Replay(c, None, log[..n]);
      assert log == front + [log[n]];
      ReplayConcat(c, None, front, [log[n]]);
      ReplayFindsFirstGreatest(c, front);
      var last := Decoded(c, log[n]);
      if last.Some? && (head.None? || head.value.number < last.value.number) {
        assert IsFirstGreatest(c, log, last.value, n);
      } else if head.Some? {
        var k: nat :| IsFirstGreatest(c, front, head.value, k);
        assert log[k] == front[k];
        assert forall i :: 0 <= i < n ==> log[i] == front[i];
        assert IsFirstGreatest(c, log, head.value, k);
      }
    }
  }

  /** Entries that were seen before change nothing. */
  lemma {:induction false} ReplaySeen(c: Codec, head: Option<Payload>, log: seq<seq<byte>>)
    requires forall i :: 0 <= i < |log| && Decoded(c, log[i]).Some? ==>
                           head.Some? && Decoded(c, log[i]).value.number <= head.value.number
    ensures Replay(c, head, log) == head
    decreases |log|
  {
    if log != [] { ReplaySeen(c, head, log[1..]); }
  }

  /** Restoring a state and replaying from an earlier point gives the state of a full replay. */
  lemma ReplayOverlap(c: Codec, log: seq<seq<byte>>, j: nat, k: nat)
    requires j <= k <= |log|
    ensures Replay(c, Replay(c, None, log[..k]), log[j..]) == Replay(c, None, log)
  {
    var head := Replay(c, None, log[..k]);
    ReplayFindsFirstGreatest(c, log[..k]);
    assert log[j..] == log[j..k] + log[k..];
    ReplayConcat(c, head, log[j..k], log[k..]);
    forall i | 0 <= i < k - j && Decoded(c, log[j..k][i]).Some?
      ensures head.Some? && Decoded(c, log[j..k][i]).value.number <= head.value.number
    {
      assert log[j..k][i] == log[..k][j + i];
    }
    ReplaySeen(c, head, log[j..k]);
    assert log == log[..k] + log[k..];
    ReplayConcat(c, None, log[..k], log[k..]);
  }

  // ----- the tracker -----

  class UnsafeHeadTracker {
    const codec: Codec
    var unsafeHead: Option<Payload>

    constructor (c: Codec)
      ensures codec == c && unsafeHead == None
    {
      codec, unsafeHead := c, None;
    }

    method Apply(data: seq<byte>) returns (ok: bool)
      modifies this
      ensures ok == Decoded(codec, data).Some? && unsafeHead == ApplyEntry(codec, old(unsafeHead), data)
    {
      if |data| == 0 {
        return false;
      }
      var p := codec.unmarshal(data);
      if p.None? {
        return false;
      }
      if unsafeHead.None? || unsafeHead.value.number < p.value.number {
        unsafeHead := p;
      }
      return true;
    }

    method Restore(snapshot: seq<byte>) returns (ok: bool)
      modifies this
      ensures ok == codec.unmarshal(snapshot).Some?
      ensures unsafeHead == if ok then codec.unmarshal(snapshot) else old(unsafeHead)
    {
      var p := codec.unmarshal(snapshot);
      if p.None? {
        return false;
      }
      unsafeHead := p;
      return true;
    }

    /** None where persisting a snapshot without a head would dereference nil. */
    method Snapshot() returns (data: Option<seq<byte>>)
      ensures data == if unsafeHead.None? then None else Some(codec.marshal(unsafeHead.value))
    {
      if unsafeHead.None? {
        return None;
      }
      return Some(codec.marshal(unsafeHead.value));
    }
  }

  // ----- what raft does with the tracker -----

  /** Entries are applied one after the other, a snapshot is saved, or one saved before is restored and the log applied
      again from an index at or before it. */
  datatype RaftEvent = ApplyNext | Save | Restore(snapshot: nat, from: nat)

  /** A snapshot is saved under the number of entries applied. `reach` remembers how much of the log its head accounts
      for, which is more while old entries are being applied again. */
  datatype Saved = Saved(data: seq<byte>, index: nat, reach: nat)

  /** The next entry to apply, and the snapshots saved; `reach` as for snapshots. */
  datatype Tracked = Tracked(head: Option<Payload>, next: nat, saved: seq<Saved>, reach: nat)

  const NEW_TRACKER := Tracked(None, 0, [], 0)

  function Move(c: Codec, log: seq<seq<byte>>, s: Tracked, e: RaftEvent): Tracked {
    match e
    case ApplyNext =>
      if s.next >= |log| then s
      else
        s.(head := ApplyEntry(c, s.head, log[s.next]), next := s.next + 1,
           reach := if s.next < s.reach then s.reach else s.next + 1)
    case Save => if s.head.None? then s else s.(saved := s.saved + [Saved(c.marshal(s.head.value), s.next, s.reach)])
    case Restore(k, from) =>
      if k >= |s.saved| || from > s.saved[k].index || c.unmarshal(s.saved[k].data).None? then s
      else s.(head := c.unmarshal(s.saved[k].data), next := from, reach := s.saved[k].reach)
  }

  function Moves(c: Codec, log: seq<seq<byte>>, s: Tracked, es: seq<RaftEvent>): Tracked
    decreases |es|
  {
    if es == [] then s else Moves(c, log, Move(c, log, s, es[0]), es[1..])
  }

  /** The head, and every snapshot, is that of replaying the log so far from nothing. */
  ghost predicate Tracks(c: Codec, log: seq<seq<byte>>, s: Tracked) {
    && s.next <= s.reach <= |log| && s.head == Replay(c, None, log[..s.reach])
    && forall k :: 0 <= k < |s.saved| ==>
         s.saved[k].index <= s.saved[k].reach <= |log| &&
         c.unmarshal(s.saved[k].data) == Replay(c, None, log[..s.saved[k].reach])
  }

  lemma ApplyNextTracks(c: Codec, log: seq<seq<byte>>, s: Tracked)
    requires Tracks(c, log, s) && s.next < |log|
    ensures ApplyEntry(c, s.head, log[s.next]) == Replay(c, None, log[..Move(c, log, s, ApplyNext).reach])
  {
    var head, i, k := s.head, s.next, s.reach;
    if i < k {
      ReplayFindsFirstGreatest(c, log[..k]);
      assert log[..k][i] == log[i];
    } else {
      assert log[..k + 1] == log[..k] + [log[k]];
      ReplayConcat(c, None, log[..k], [log[k]]);
    }
  }

  lemma MoveKeepsTracks(c: Codec, log: seq<seq<byte>>, s: Tracked, e: RaftEvent)
    requires RoundTrips(c) && Tracks(c, log, s)
    ensures Tracks(c, log, Move(c, log, s, e))
  {
    hide Replay, ApplyEntry;
    if e.ApplyNext? && s.next < |log| {
      ApplyNextTracks(c, log, s);
    }
  }

  lemma {:induction false} MovesKeepTracks(c: Codec, log: seq<seq<byte>>, s: Tracked, es: seq<RaftEvent>)
    requires RoundTrips(c) && Tracks(c, log, s)
    ensures Tracks(c, log, Moves(c, log, s, es))
    decreases |es|
  {
    hide Tracks, Move;
    if es != [] {
      MoveKeepsTracks(c, log, s, es[0]);
      MovesKeepTracks(c, log, Move(c, log, s, es[0]), es[1..]);
    }
  }

  lemma NewTracks(c: Codec, log: seq<seq<byte>>)
    ensures Tracks(c, log, NEW_TRACKER)
  {
  }

  /** However often and at whatever moments snapshots are saved, old ones restored and parts of the log applied again,
      also in the middle of an earlier replay, the head is the first of the greatest payloads of the log so far;
      and once the log is applied to its end, that of the whole log. */
  lemma EveryRunFindsFirstGreatest(c: Codec, log: seq<seq<byte>>, es: seq<RaftEvent>)
    requires RoundTrips(c)
    ensures var s := Moves(c, log, NEW_TRACKER, es);
            && s.next <= s.reach <= |log| && FirstGreatest(c, log[..s.reach], s.head)
            && (s.next == |log| ==> s.head == Replay(c, None, log) && FirstGreatest(c, log, s.head))
  {
    NewTracks(c, log);
    MovesKeepTracks(c, log, NEW_TRACKER, es);
    var s := Moves(c, log, NEW_TRACKER, es);
    ReplayFindsFirstGreatest(c, log[..s.reach]);
    assert s.reach == |log| ==> log[..s.reach] == log;
  }

  /** One event on the tracker itself. */
  method Handle(t: UnsafeHeadTracker, log: seq<seq<byte>>, s: Tracked, e: RaftEvent) returns (s': Tracked)
    requires s.head == t.unsafeHead
    modifies t
    ensures s' == Move(t.codec, log, s, e) && s'.head == t.unsafeHead
  {
    s' := s;
    match e {
      case ApplyNext =>
        if s.next < |log| {
          var _ := t.Apply(log[s.next]);
          s' := s.(head := t.unsafeHead, next := s.next + 1, reach := if s.next < s.reach then s.reach else s.next + 1);
        }
      case Save =>
        var data := t.Snapshot();
        if data.Some? {
          s' := s.(saved := s.saved + [Saved(data.value, s.next, s.reach)]);
        }
      case Restore(k, from) =>
        if k < |s.saved| && from <= s.saved[k].index {
          var ok := t.Restore(s.saved[k].data);
          if ok {
            s' := s.(head := t.unsafeHead, next := from, reach := s.saved[k].reach);
          }
        }
    }
  }
}
