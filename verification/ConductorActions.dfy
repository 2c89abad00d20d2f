/** What every turn of the control loop does, case by case (op-conductor/conductor/service.go). */
module ConductorActions {
  import opened Words
  import opened ConductorFsm
  import opened ConductorLoop

  // ----- reports -----

  /** Reports and requests set exactly what they are about. Failing health reports and changes of health queue an action,
      leader updates and resumes always do. */
  lemma ReportsMean(l: Loop, head: Option<Payload>, e: Event)
    ensures var l', s := Turn(l, head, e), l.status;
            match e
            case Health(error) =>
              && l'.status == Status(s.leader, error.None?, s.active) && l'.hcerr == error
              && (l'.queued <==> l.queued || error.Some? || !s.healthy)
              && l'.paused == l.paused && l'.prev == l.prev && l'.commands == l.commands
            case Leadership(leader) => l' == l.(status := Status(leader, s.healthy, s.active), queued := true)
            case Pause => l' == l.(paused := true)
            case Refresh(active) => l' == l.(status := Status(s.leader, s.healthy, active))
            case RefreshAndResume(active) => l' == l.(status := Status(s.leader, s.healthy, active), paused := false, queued := true)
            case Action(_) => (!l.queued ==> l' == l) && (l.queued && l.paused ==> l' == l.(queued := false))
  {
  }

  // ----- starting -----

  /** Consensus has a head, the node has it or lacks just that and takes it, and the node starts or had started. */
  predicate StartWorks(head: Option<Payload>, a: StartAnswers) {
    && a.barrier && head.Some? && a.node.Some? && a.starts != Failure
    && (|| head.value.hash == a.node.value.hash
        || ((head.value.number - a.node.value.number) % 0x1_0000_0000_0000_0000 == 1 && a.posts))
  }

  /** An action that runs: one is queued and the loop is not paused. */
  predicate Runs(l: Loop) {
    l.queued && !l.paused
  }

  /** The action succeeded, and what it saw is remembered. */
  predicate Succeeds(l: Loop, l': Loop) {
    !l'.queued && l'.prev == l.status
  }

  /** The action failed: it is queued again and nothing is remembered. */
  predicate Retries(l: Loop, l': Loop) {
    l'.queued && l'.prev == l.prev
  }

  /** A healthy leader that does not sequence starts, or retries if it cannot. */
  lemma HealthyLeaderStarts(l: Loop, head: Option<Payload>, a: ActionAnswers)
    requires Runs(l) && l.status == Status(true, true, false)
    ensures var l' := Turn(l, head, Action(a));
            if StartWorks(head, a.start) then l'.status == Status(true, true, true) && Succeeds(l, l')
            else l'.status == l.status && Retries(l, l')
  {
  }

  // ----- leaders that are not healthy -----

  /** An unhealthy leader that sequences stops and gives up leadership, except that one which started sequencing while
      unhealthy keeps trying to recover; not if the sequencer cannot be reached. */
  lemma UnhealthyLeaderGivesUp(l: Loop, head: Option<Payload>, a: ActionAnswers)
    requires Runs(l) && l.status == Status(true, false, true)
    ensures var l' := Turn(l, head, Action(a));
            && l'.commands == l.commands
            && (if l.prev == Status(true, false, false) && l.hcerr != Some(ConnectionDown)
                then l'.status == l.status && Retries(l, l')
                else
                  && l'.status == Status(a.transfer != Transferred, false, a.stops == Failure)
                  && (if a.stops == Failure || a.transfer == TransferFailed then Retries(l, l') else Succeeds(l, l')))
  {
  }

  /** So with commands that succeed it ends as an idle follower exactly outside that exception. */
  lemma GivesUpIff(l: Loop, head: Option<Payload>, a: ActionAnswers)
    requires Runs(l) && l.status == Status(true, false, true) && a.stops != Failure && a.transfer == Transferred
    ensures var l' := Turn(l, head, Action(a));
            l'.status == Status(false, false, false) && !l'.queued <==>
            !(l.prev == Status(true, false, false) && l.hcerr != Some(ConnectionDown))
  {
    UnhealthyLeaderGivesUp(l, head, a);
  }

  /** An unhealthy leader that does not sequence starts only if it was a follower before, and can be reached; if it did not
      start, it gives up leadership. */
  lemma UnhealthyIdleLeader(l: Loop, head: Option<Payload>, a: ActionAnswers)
    requires Runs(l) && l.status == Status(true, false, false)
    ensures var l' := Turn(l, head, Action(a));
            var tried := !l.prev.leader && !l.prev.active && l.hcerr != Some(ConnectionDown);
            && (tried && StartWorks(head, a.start) ==> l'.status == Status(true, false, true) && Succeeds(l, l'))
            && (!(tried && StartWorks(head, a.start)) ==>
                  && l'.status == Status(a.transfer != Transferred, false, false)
                  && (if a.transfer == TransferFailed then Retries(l, l') else Succeeds(l, l')))
            && (!tried ==> l'.commands == l.commands)
            && (tried && StartWorks(head, a.start) ==>
                  exists k :: |l.commands| <= k < |l'.commands| && l'.commands[k] == Start(head.value.hash))
  {
    var l' := Turn(l, head, Action(a));
    if !l.prev.leader && !l.prev.active && l.hcerr != Some(ConnectionDown) && StartWorks(head, a.start) {
      assert l'.commands[|l'.commands| - 1] == Start(head.value.hash);
    }
  }

  // ----- followers, and leaders that are as they should be -----

  /** A follower that sequences stops, or retries; one that does not, and a healthy leader that does, are left alone. */
  lemma FollowerStops(l: Loop, head: Option<Payload>, a: ActionAnswers)
    requires Runs(l) && (!l.status.leader || l.status == Status(true, true, true))
    ensures var l' := Turn(l, head, Action(a));
            && l'.commands == l.commands
            && (if !l.status.leader && l.status.active && a.stops == Failure then l'.status == l.status && Retries(l, l')
                else l'.status == Status(l.status.leader, l.status.healthy, l.status.leader) && Succeeds(l, l'))
  {
  }

  // ----- failover -----

  /** A leader in order whose health check fails, for whatever reason, is out after the next action whose commands
      succeed: it neither leads nor sequences, and does not retry. */
  lemma FailsOver(l: Loop, head: Option<Payload>, e: HealthError, a: ActionAnswers)
    requires !l.paused && l.status == l.prev == Status(true, true, true) && a.stops != Failure && a.transfer == Transferred
    ensures var l1 := Turn(l, head, Health(Some(e)));
            var l2 := Turn(l1, head, Action(a));
            l1.queued && l2.status == Status(false, false, false) && !l2.queued
  {
    ReportsMean(l, head, Health(Some(e)));
    UnhealthyLeaderGivesUp(Turn(l, head, Health(Some(e))), head, a);
  }

  /** A follower that is made leader while unhealthy takes over if it can start, waits to recover while its checks fail, and
      gives up as soon as the sequencer cannot be reached. */
  lemma TakesOverThenGivesUp(l: Loop, head: Option<Payload>, a: ActionAnswers, e: HealthError, b: ActionAnswers)
    requires !l.paused && l.status == l.prev == Status(false, false, false) && l.hcerr == Some(OtherError) && StartWorks(head, a.start)
    requires b.stops != Failure && b.transfer == Transferred
    ensures var l1 := Turn(l, head, Leadership(true));
            var l2 := Turn(l1, head, Action(a));
            var l3 := Turn(l2, head, Health(Some(e)));
            var l4 := Turn(l3, head, Action(b));
            && l2.status == Status(true, false, true) && l3.status == Status(true, false, true)
            && (if e == ConnectionDown then l4.status == Status(false, false, false) && !l4.queued
                else l4.status == Status(true, false, true) && l4.queued)
  {
    var l1 := Turn(l, head, Leadership(true));
    ReportsMean(l, head, Leadership(true));
    UnhealthyIdleLeader(l1, head, a);
    var l2 := Turn(l1, head, Action(a));
    var l3 := Turn(l2, head, Health(Some(e)));
    ReportsMean(l2, head, Health(Some(e)));
    assert l2.paused == l1.paused;
    UnhealthyLeaderGivesUp(l3, head, b);
  }
}
