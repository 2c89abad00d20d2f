/** The conductor as a whole: raft applying the replicated log to the head tracker, and the control loop acting on it
    (op-conductor/consensus/raft_fsm.go and op-conductor/conductor/service.go). */
module ConductorRuns {
  import opened Words
  import opened ConductorFsm
  import opened ConductorLoop

  datatype Conductor = Conductor(tracked: Tracked, loop: Loop)

  datatype Occurrence = Raft(raft: RaftEvent) | Control(event: Event)

  /** The replicated log and its codec are fixed; what happens is when entries are applied, snapshots restored and the
      loop turns. */
  function Next(c: Codec, log: seq<seq<byte>>, s: Conductor, o: Occurrence): Conductor {
    match o
    case Raft(e) => s.(tracked := Move(c, log, s.tracked, e))
    case Control(e) => s.(loop := Turn(s.loop, s.tracked.head, e))
  }

  function Run(c: Codec, log: seq<seq<byte>>, s: Conductor, os: seq<Occurrence>): Conductor {
    if os == [] then s
    else Next(c, log, Run(c, log, s, os[..|os| - 1]), os[|os| - 1])
  }

  // ----- every start is on the replicated head -----

  /** In the state `s`, the action answered by `a` gives command `cmd` right after `before`: to start on the first
      greatest payload of the log so far, which the node already has, or lacks alone and was successfully given just before.
      Only a leader that is not paused does so. */
  ghost predicate StartsOnHead(c: Codec, log: seq<seq<byte>>, s: Conductor, a: StartAnswers, before: Option<Command>, cmd: Command) {
    && s.loop.status.leader && !s.loop.paused && !s.loop.status.active
    && s.tracked.head.Some? && a.node.Some?
    && s.tracked.next <= s.tracked.reach <= |log| && FirstGreatest(c, log[..s.tracked.reach], s.tracked.head)
    && cmd == Start(s.tracked.head.value.hash)
    && (a.node.value.hash == s.tracked.head.value.hash ||
        (OneBehind(s.tracked.head.value, a.node.value) && a.posts && before == Some(Post(s.tracked.head.value))))
  }

  /** The command before the `k`-th. */
  function Before(commands: seq<Command>, k: nat): Option<Command>
    requires k <= |commands|
  {
    if k == 0 then None else Some(commands[k - 1])
  }

  ghost predicate CommandedAt(c: Codec, log: seq<seq<byte>>, s: Conductor, o: Occurrence, commands: seq<Command>, k: nat)
    requires k < |commands|
  {
    o.Control? && o.event.Action? && StartsOnHead(c, log, s, o.event.answers.start, Before(commands, k), commands[k])
  }

  lemma ActionStartsOnHead(c: Codec, log: seq<seq<byte>>, s: Conductor, o: Occurrence, k: nat)
    requires Tracks(c, log, s.tracked)
    requires |s.loop.commands| <= k < |Next(c, log, s, o).loop.commands| && Next(c, log, s, o).loop.commands[k].Start?
    ensures CommandedAt(c, log, s, o, Next(c, log, s, o).loop.commands, k)
  {
    hide Act, Replay, Tracks, FirstGreatest;
    HeadIsFirstGreatest(c, log, s.tracked);
  }

  lemma HeadIsFirstGreatest(c: Codec, log: seq<seq<byte>>, t: Tracked)
    requires Tracks(c, log, t)
    ensures t.next <= t.reach <= |log| && FirstGreatest(c, log[..t.reach], t.head)
  {
    ReplayFindsFirstGreatest(c, log[..t.reach]);
  }

  lemma {:induction false} RunTracks(c: Codec, log: seq<seq<byte>>, s: Conductor, os: seq<Occurrence>)
    requires RoundTrips(c) && Tracks(c, log, s.tracked)
    ensures Tracks(c, log, Run(c, log, s, os).tracked)
  {
    hide Tracks, Move, Turn;
    if os != [] {
      var before, o := Run(c, log, s, os[..|os| - 1]), os[|os| - 1];
      RunTracks(c, log, s, os[..|os| - 1]);
      if o.Raft? {
        MoveKeepsTracks(c, log, before.tracked, o.raft);
      }
    }
  }

  /** Commands are only ever added. */
  lemma NextAdds(c: Codec, log: seq<seq<byte>>, s: Conductor, o: Occurrence)
    ensures s.loop.commands <= Next(c, log, s, o).loop.commands
  {
    hide Act, Given, Move;
  }

  /** In every run, in which log entries, snapshots, restores and turns of the loop mix in any way, every command to start
      the sequencer was given on the first greatest payload that the replicated log held at that time. */
  lemma {:induction false} EveryStartIsOnHead(c: Codec, log: seq<seq<byte>>, s: Conductor, os: seq<Occurrence>, k: nat)
    returns (i: nat)
    requires RoundTrips(c) && Tracks(c, log, s.tracked) && s.loop.commands == []
    requires k < |Run(c, log, s, os).loop.commands| && Run(c, log, s, os).loop.commands[k].Start?
    ensures i < |os| && CommandedAt(c, log, Run(c, log, s, os[..i]), os[i], Run(c, log, s, os).loop.commands, k)
  {
    hide Tracks, Next, StartsOnHead;
    var n := |os| - 1;
    var before := Run(c, log, s, os[..n]);
    NextAdds(c, log, before, os[n]);
    if k < |before.loop.commands| {
      i := EveryStartIsOnHead(c, log, s, os[..n], k);
      assert os[..n][..i] == os[..i];
    } else {
      i := n;
      RunTracks(c, log, s, os[..n]);
      ActionStartsOnHead(c, log, before, os[n], k);
    }
  }

  // ----- no wake-up is lost for good -----

  /** From the `i`-th occurrence on, no resume request times out in a state where that loses the wake-up. */
  predicate NoneLost(c: Codec, log: seq<seq<byte>>, s: Conductor, os: seq<Occurrence>, i: nat) {
    forall j :: i <= j < |os| && os[j].Control? ==> !LosesWakeUp(Run(c, log, s, os[..j]).loop, os[j].event)
  }

  /** In every run, a loop that is awake at some moment is awake at the end, exactly up to resume requests that lose the
      wake-up: see `TurnKeepsAwakeIff`. */
  lemma {:induction false} RunKeepsAwake(c: Codec, log: seq<seq<byte>>, s: Conductor, os: seq<Occurrence>, i: nat)
    requires i <= |os| && Awake(Run(c, log, s, os[..i]).loop) && NoneLost(c, log, s, os, i)
    ensures Awake(Run(c, log, s, os).loop)
    decreases |os|
  {
    hide Awake, Turn, Move, LosesWakeUp;
    var n := |os|;
    if i == n {
      assert os[..n] == os;
    } else {
      var front, o := os[..n - 1], os[n - 1];
      assert forall j :: 0 <= j < n ==> front[..j] == os[..j];
      RunKeepsAwake(c, log, s, front, i);
      var before := Run(c, log, s, front);
      if o.Control? {
        TurnKeepsAwakeIff(before.loop, before.tracked.head, o.event);
      }
    }
  }

  /** And whatever was lost before, after the next leader update, failing health report or resume it is awake again. */
  lemma RunWakesAgain(c: Codec, log: seq<seq<byte>>, s: Conductor, os: seq<Occurrence>, i: nat)
    requires i < |os| && os[i].Control? && QueuesAction(os[i].event) && NoneLost(c, log, s, os, i + 1)
    ensures Awake(Run(c, log, s, os).loop)
  {
    hide Turn, Move, QueuesAction, NoneLost;
    var before := Run(c, log, s, os[..i]);
    QueuesActionWakes(before.loop, before.tracked.head, os[i].event);
    assert os[..i + 1][..i] == os[..i] && os[..i + 1][i] == os[i];
    RunKeepsAwake(c, log, s, os, i + 1);
  }

  // ----- the objects -----

  /** The conductor object and its tracker go through every run as the state does. */
  method Drive(oc: OpConductor, log: seq<seq<byte>>, os: seq<Occurrence>) returns (t: Tracked)
    requires oc.cons.unsafeHead == None
    modifies oc, oc.cons
    ensures Conductor(t, oc.View()) == Run(oc.cons.codec, log, Conductor(NEW_TRACKER, old(oc.View())), os)
    ensures oc.cons.unsafeHead == t.head
  {
    hide Move, Turn;
    t := NEW_TRACKER;
    ghost var s := Conductor(t, oc.View());
    for i := 0 to |os|
      invariant Conductor(t, oc.View()) == Run(oc.cons.codec, log, s, os[..i])
      invariant oc.cons.unsafeHead == t.head
    {
      assert os[..i + 1][..i] == os[..i] && os[..i + 1][i] == os[i];
      match os[i] {
        case Raft(e) => t := Handle(oc.cons, log, t, e);
        case Control(e) => TakeTurn(oc, e);
      }
    }
    assert os[..|os|] == os;
  }

  method TakeTurn(oc: OpConductor, e: Event)
    modifies oc
    ensures oc.View() == Turn(old(oc.View()), oc.cons.unsafeHead, e)
  {
    match e {
      case Health(error) => oc.HandleHealthUpdate(error);
      case Leadership(leader) => oc.HandleLeaderUpdate(leader);
      case Pause => oc.PauseLoop();
      case Refresh(active) => var _ := oc.Resume(Some(active), false);
      case RefreshAndResume(active) => var _ := oc.Resume(Some(active), true);
      case Action(answers) =>
        if oc.actionQueued {
          oc.RunQueuedAction(answers);
        }
    }
  }
}
