/** The control loop of the conductor: leadership, health and sequencing, with a one-slot queue of actions
    (op-conductor/conductor/service.go). */
module ConductorLoop {
  import opened Words
  import opened Merkle
  import opened ConductorFsm

  // ----- starting the sequencer -----

  datatype BlockInfo = BlockInfo(hash: Bytes32, number: uint64)

  datatype CommandAnswer = Success | AlreadyDone | Failure

  /** What consensus and the node answer while the sequencer is being started: whether the barrier held that precedes
      reading the replicated head, the node's own head, and how it takes the commands. */
  datatype StartAnswers = StartAnswers(barrier: bool, node: Option<BlockInfo>, posts: bool, starts: CommandAnswer)

  datatype Command = Post(payload: Payload) | Start(hash: Bytes32)

  /** The node lacks exactly the head, as 64-bit block numbers tell. */
  predicate OneBehind(head: Payload, node: BlockInfo) {
    (head.number - node.number) % 0x1_0000_0000_0000_0000 == 1
  }

  /** Whether the start succeeds, and the commands given to the node on the way. `head` is the replicated head. */
  function StartSpec(head: Option<Payload>, a: StartAnswers): (bool, seq<Command>) {
    if !a.barrier || head.None? || a.node.None? then (false, [])
    else
      var head, node := head.value, a.node.value;
      if head.hash == node.hash then (a.starts != Failure, [Start(head.hash)])
      else if !OneBehind(head, node) then (false, [])
      else if !a.posts then (false, [Post(head)])
      else (a.starts != Failure, [Post(head), Start(head.hash)])
  }

  /** Success means that a start was commanded. */
  lemma StartedWasCommanded(head: Option<Payload>, a: StartAnswers)
    requires StartSpec(head, a).0
    ensures exists k: nat :: k < |StartSpec(head, a).1| && StartSpec(head, a).1[k].Start?
  {
    var cmds := StartSpec(head, a).1;
    assert cmds[|cmds| - 1].Start?;
  }

  // ----- the state of the loop -----

  datatype Status = Status(leader: bool, healthy: bool, active: bool)

  datatype HealthError = ConnectionDown | OtherError

  /** `queued` is the one slot of the action channel, `commands` what the node was told to post and start. */
  datatype Loop = Loop(
    status: Status,
    hcerr: Option<HealthError>,
    prev: Status,
    paused: bool,
    queued: bool,
    commands: seq<Command>)

  datatype TransferAnswer = Transferred | NotLeader | TransferFailed

  datatype ActionAnswers = ActionAnswers(start: StartAnswers, stops: CommandAnswer, transfer: TransferAnswer)

  /** The status after a command, and whether it failed. */
  function AfterTransfer(s: Status, t: TransferAnswer): (Status, bool) {
    (if t == Transferred then s.(leader := false) else s, t == TransferFailed)
  }

  function AfterStop(s: Status, stops: CommandAnswer): (Status, bool) {
    if stops == Failure then (s, true) else (s.(active := false), false)
  }

  function AfterStart(s: Status, head: Option<Payload>, a: StartAnswers): (Status, bool) {
    if StartSpec(head, a).0 then (s.(active := true), false) else (s, true)
  }

  /** An unhealthy leader that just took over may start sequencing, unless the sequencer is unreachable. */
  predicate TookOver(l: Loop) {
    !l.prev.leader && !l.prev.active && l.hcerr != Some(ConnectionDown)
  }

  /** It then waits to become healthy by itself. */
  predicate Recovering(l: Loop) {
    l.prev.leader && !l.prev.healthy && !l.prev.active && l.hcerr != Some(ConnectionDown)
  }

  /** What an action does to the status, and whether it must be retried. */
  function Act(l: Loop, head: Option<Payload>, a: ActionAnswers): (Status, bool) {
    var s := l.status;
    match (s.leader, s.healthy, s.active)
    case (false, false, false) => (s, false)
    case (false, false, true) => AfterStop(s, a.stops)
    case (false, true, false) => (s, false)
    case (false, true, true) => AfterStop(s, a.stops)
    case (true, false, false) =>
      if TookOver(l) && StartSpec(head, a.start).0 then AfterStart(s, head, a.start) else AfterTransfer(s, a.transfer)
    case (true, false, true) =>
      if Recovering(l) then (s, true)
      else
        var (s1, failed1) := AfterStop(s, a.stops);
        var (s2, failed2) := AfterTransfer(s1, a.transfer);
        (s2, failed1 || failed2)
    case (true, true, false) => AfterStart(s, head, a.start)
    case (true, true, true) => (s, false)
  }

  /** An action tries to start an idle sequencer of a healthy leader, or of one that just took over. */
  predicate Starts(l: Loop) {
    l.status.leader && !l.status.active && (l.status.healthy || TookOver(l))
  }

  function Given(l: Loop, head: Option<Payload>, a: ActionAnswers): seq<Command> {
    if Starts(l) then StartSpec(head, a.start).1 else []
  }

  /** A paused loop drops the action. A failed one is queued again. */
  function RunAction(l: Loop, head: Option<Payload>, a: ActionAnswers): Loop {
    if l.paused then l.(queued := false)
    else
      var (s, retry) := Act(l, head, a);
      l.(status := s, queued := retry, prev := if retry then l.prev else l.status, commands := l.commands + Given(l, head, a))
  }

  /** A resume request refreshes the sequencing status first; if the request itself then times out, only that happens. */
  datatype Event =
    | Health(error: Option<HealthError>)
    | Leadership(leader: bool)
    | Pause
    | Refresh(active: bool)
    | RefreshAndResume(active: bool)
    | Action(answers: ActionAnswers)

  /** One turn of the loop, `head` being the replicated head at that time. An action only runs if one is queued. */
  function Turn(l: Loop, head: Option<Payload>, e: Event): Loop {
    match e
    case Health(error) =>
      var healthy := error.None?;
      l.(status := l.status.(healthy := healthy), hcerr := error,
         queued := l.queued || !healthy || l.status.healthy != healthy)
    case Leadership(leader) => l.(status := l.status.(leader := leader), queued := true)
    case Pause => l.(paused := true)
    case Refresh(active) => l.(status := l.status.(active := active))
    case RefreshAndResume(active) => l.(status := l.status.(active := active), paused := false, queued := true)
    case Action(answers) => if l.queued then RunAction(l, head, answers) else l
  }

  // ----- no wake-up is lost -----

  /** An action would leave everything as it is. */
  predicate Settled(s: Status) {
    if s.leader then s.healthy && s.active else !s.active
  }

  /** Unless paused, either an action is queued, or there is nothing to do, or the node is an unhealthy leader. */
  predicate Awake(l: Loop) {
    l.paused || l.queued || Settled(l.status) || (l.status.leader && !l.status.healthy)
  }

  /** With nothing to do, an action does nothing, whatever the answers. */
  lemma SettledMeansNothingToDo(l: Loop, head: Option<Payload>, a: ActionAnswers)
    requires Settled(l.status)
    ensures Act(l, head, a) == (l.status, false) && Given(l, head, a) == []
  {
  }

  /** With something to do, an action whose commands succeed changes the status, except that a recovering leader waits. */
  lemma UnsettledMeansSomethingToDo(l: Loop, head: Option<Payload>, a: ActionAnswers)
    requires !Settled(l.status) && StartSpec(head, a.start).0 && a.stops != Failure && a.transfer == Transferred
    ensures Act(l, head, a).0 != l.status <==> !(l.status == Status(true, false, true) && Recovering(l))
  {
  }

  /** For an unhealthy leader, the next health report queues an action, whatever it says. */
  lemma HealthReportWakesUnhealthy(l: Loop, head: Option<Payload>, error: Option<HealthError>)
    requires !l.status.healthy
    ensures Turn(l, head, Health(error)).queued
  {
  }

  /** A refresh whose resume request times out, when nothing else would wake the loop and the new status disagrees with
      leadership. */
  predicate LosesWakeUp(l: Loop, e: Event) {
    e.Refresh? && !l.paused && !l.queued && !(l.status.leader && !l.status.healthy) && e.active != l.status.leader
  }

  /** A wake-up is lost exactly so. */
  lemma TurnKeepsAwakeIff(l: Loop, head: Option<Payload>, e: Event)
    requires Awake(l)
    ensures Awake(Turn(l, head, e)) <==> !LosesWakeUp(l, e)
  {
    hide StartSpec, Given;
  }

  /** Whatever the state, these leave an action queued. */
  predicate QueuesAction(e: Event) {
    e.Leadership? || e.RefreshAndResume? || (e.Health? && e.error.Some?)
  }

  lemma QueuesActionWakes(l: Loop, head: Option<Payload>, e: Event)
    requires QueuesAction(e)
    ensures Turn(l, head, e).queued
  {
  }

  /** A loop that lost its wake-up is awake again after exactly these: a leader update, a failing health report, a passing
      one of an unhealthy node, a resume, a refresh that agrees with leadership, or a pause, which ends in a resume. */
  lemma LostLoopWakesIff(l: Loop, head: Option<Payload>, e: Event)
    requires !Awake(l)
    ensures Awake(Turn(l, head, e)) <==>
            || QueuesAction(e) || e.Pause?
            || (e.Health? && !l.status.healthy)
            || (e.Refresh? && e.active == l.status.leader)
  {
  }

  lemma RefreshCanLoseWakeUp(head: Option<Payload>)
    ensures var l := Loop(Status(true, true, true), None, Status(true, true, true), false, false, []);
            Awake(l) && !Awake(Turn(l, head, Refresh(false)))
  {
  }

  // ----- the conductor -----

  class OpConductor {
    const cons: UnsafeHeadTracker
    var leader: bool
    var healthy: bool
    var seqActive: bool
    var hcerr: Option<HealthError>
    var prevState: Status
    var paused: bool
    var actionQueued: bool

    // commands given to the node so far
    var commands: seq<Command>

    ghost function View(): Loop
      reads this
    {
      Loop(Status(leader, healthy, seqActive), hcerr, prevState, paused, actionQueued, commands)
    }

    /** As after the start of the service, which queues a first action. */
    constructor (t: UnsafeHeadTracker, isLeader: bool, isHealthy: bool, active: bool, isPaused: bool)
      ensures cons == t && Awake(View())
      ensures View() == Loop(Status(isLeader, isHealthy, active), None, Status(isLeader, isHealthy, active), isPaused, true, [])
    {
      cons := t;
      leader, healthy, seqActive, hcerr, paused := isLeader, isHealthy, active, None, isPaused;
      prevState := Status(isLeader, isHealthy, active);
      commands := [];
      actionQueued := true;
    }

    method QueueAction()
      modifies this`actionQueued
      ensures actionQueued
    {
      if !actionQueued {
        actionQueued := true;
      }
    }

    method HandleLeaderUpdate(isLeader: bool)
      modifies this`leader, this`actionQueued
      ensures Awake(View()) && View() == Turn(old(View()), cons.unsafeHead, Leadership(isLeader))
    {
      leader := isLeader;
      QueueAction();
    }

    method HandleHealthUpdate(error: Option<HealthError>)
      modifies this`healthy, this`hcerr, this`actionQueued
      ensures old(Awake(View())) || error.Some? ==> Awake(View())
      ensures View() == Turn(old(View()), cons.unsafeHead, Health(error))
    {
      var isHealthy := error.None?;
      if !isHealthy {
        QueueAction();
      }
      var before := healthy;
      healthy := isHealthy;
      if before != isHealthy {
        QueueAction();
      }
      hcerr := error;
    }

    method TransferLeader(t: TransferAnswer) returns (failed: bool)
      modifies this`leader
      ensures (Status(leader, healthy, seqActive), failed) == AfterTransfer(old(Status(leader, healthy, seqActive)), t)
    {
      if t == Transferred {
        leader := false;
        return false;
      }
      return t != NotLeader;
    }

    method StopSequencer(stops: CommandAnswer) returns (failed: bool)
      modifies this`seqActive
      ensures (Status(leader, healthy, seqActive), failed) == AfterStop(old(Status(leader, healthy, seqActive)), stops)
    {
      if stops == Failure {
        return true;
      }
      seqActive := false;
      return false;
    }

    method StartSequencer(a: StartAnswers) returns (failed: bool)
      modifies this`seqActive, this`commands
      ensures (Status(leader, healthy, seqActive), failed) == AfterStart(old(Status(leader, healthy, seqActive)), cons.unsafeHead, a)
      ensures commands == old(commands) + StartSpec(cons.unsafeHead, a).1
    {
      if !a.barrier {
        return true;
      }
      var unsafeInCons := cons.unsafeHead;
      if unsafeInCons.None? || a.node.None? {
        return true;
      }
      var head, node := unsafeInCons.value, a.node.value;
      if head.hash != node.hash {
        if (head.number - node.number) % 0x1_0000_0000_0000_0000 != 1 {
          return true;
        }
        commands := commands + [Post(head)];
        if !a.posts {
          return true;
        }
      }
      commands := commands + [Start(head.hash)];
      if a.starts == Failure {
        return true;
      }
      seqActive := true;
      return false;
    }

    /** Brings the sequencer to the state that leadership and health ask for. */
    method Perform(a: ActionAnswers) returns (failed: bool)
      modifies this`leader, this`seqActive, this`commands
      ensures (Status(leader, healthy, seqActive), failed) == Act(old(View()), cons.unsafeHead, a)
      ensures commands == old(commands) + Given(old(View()), cons.unsafeHead, a)
    {
      hide StartSpec;
      assert commands + [] == commands;
      failed := false;
      if !leader {
        if seqActive {
          failed := StopSequencer(a.stops);
        }
      } else if healthy {
        if !seqActive {
          failed := StartSequencer(a.start);
        }
      } else if !seqActive {
        if !prevState.leader && !prevState.active && hcerr != Some(ConnectionDown) {
          failed := StartSequencer(a.start);
          if !failed {
            return;
          }
        }
        failed := TransferLeader(a.transfer);
      } else {
        if prevState.leader && !prevState.healthy && !prevState.active && hcerr != Some(ConnectionDown) {
          return true;
        }
        var f1 := StopSequencer(a.stops);
        var f2 := TransferLeader(a.transfer);
        failed := f1 || f2;
      }
    }

    /** Takes the queued action. */
    method RunQueuedAction(a: ActionAnswers)
      requires actionQueued
      modifies this
      ensures Awake(View()) && View() == Turn(old(View()), cons.unsafeHead, Action(a))
    {
      hide Act, Given;
      TurnKeepsAwakeIff(View(), cons.unsafeHead, Action(a));
      actionQueued := false;
      if paused {
        return;
      }
      var status := Status(leader, healthy, seqActive);
      SameAct(Loop(status, hcerr, prevState, paused, true, commands), cons.unsafeHead, a);
      var failed := Perform(a);
      if failed {
        QueueAction();
        return;
      }
      if status != prevState {
        prevState := status;
      }
    }

    method PauseLoop()
      modifies this`paused
      ensures Awake(View()) && View() == Turn(old(View()), cons.unsafeHead, Pause)
    {
      paused := true;
    }

    /** Refreshes the sequencing status, if the node answers, then asks the loop to resume, if it takes the request in
        time. */
    method Resume(active: Option<bool>, taken: bool) returns (ok: bool)
      modifies this`seqActive, this`paused, this`actionQueued
      ensures ok == (active.Some? && taken)
      ensures View() == if active.None? then old(View())
                        else Turn(old(View()), cons.unsafeHead, if taken then RefreshAndResume(active.value) else Refresh(active.value))
      ensures ok ==> Awake(View())
    {
      if active.None? {
        return false;
      }
      seqActive := active.value;
      if !taken {
        return false;
      }
      paused := false;
      QueueAction();
      return true;
    }
  }

  /** What an action does is independent of the queue. */
  lemma SameAct(l: Loop, head: Option<Payload>, a: ActionAnswers)
    ensures Act(l, head, a) == Act(l.(queued := false), head, a) && Given(l, head, a) == Given(l.(queued := false), head, a)
  {
    hide StartSpec;
  }
}
