/**
 When a node's mirror keeps in step with the channel row. Changes come one at a time, each is heard before
 the next, and an evaluation hears its own notice. Even so there are changes that leave the mirror behind;
 they are exactly the ones named here.
 */
module MirrorSync {
  import opened Common
  import opened ChannelRow
  import opened NodeState
  import opened HubTheorems
  import Fleet

  datatype Change =
    | Close
    | Start(deadline: Option<int>)
    | Move(until: int)
    | SetMode(unlimited: bool)
    | FrozenElsewhere           // another node in step with the row freezes it
    | ThawedElsewhere
    | Evaluated(ownerPresent: bool)

  datatype Pair = Pair(row: Row, mirror: Chan)

  /**
   The mirror is paused exactly when the row is. Seconds are rounded up in the row and down in the notice,
   so a frozen remainder may be up to one second shorter in the mirror.
   */
  predicate InStep(p: Pair) {
    && p.mirror.suspended == p.row.suspendedAt.Some?
    && p.mirror.unlimited == p.row.unlimited
    && p.mirror.deadline == p.row.deadline
    && match p.row.pausedSecs
       case None => p.mirror.frozen == 0
       case Some(secs) => 0 < p.mirror.frozen && secs * SECOND - SECOND <= p.mirror.frozen <= secs * SECOND
  }

  function PausedNotice(deadline: Option<int>, at: int): Message {
    Paused(WholeSeconds(Remaining(deadline, at)))
  }

  /** An evaluation, its statement, and the notice it publishes and hears. */
  function Evaluation(p: Pair, ownerPresent: bool, at: int): Pair {
    var assessed := Assess(p.mirror, ownerPresent, at);
    if !ownerPresent && Freezes(p.mirror, at) then
      Pair(Next(p.row, Pause, at),
           if Fleet.PauseOk(p.row, at, true) then Receive(assessed, PausedNotice(p.mirror.deadline, at)) else assessed)
    else if ownerPresent && p.mirror.frozen > 0 then
      var (row, reply) := Execute(p.row, Resume, at);
      Pair(row, if reply.Returned? then Receive(assessed, Restarted(reply.deadline)) else assessed)
    else Pair(p.row, assessed)
  }

  function Apply(p: Pair, change: Change, at: int): Pair {
    match change
    case Close =>
      var (row, reply) := Execute(p.row, SuspendIfActive, at);
      Pair(row, if reply == Affected(0) then p.mirror else Receive(p.mirror, Suspended))
    case Start(deadline) => Pair(Next(p.row, StartOperating(deadline), at), Receive(p.mirror, Operating(deadline)))
    case Move(until) =>
      var (row, reply) := Execute(p.row, SetDeadline(Some(until)), at);
      Pair(row, if reply == Affected(0) then p.mirror else Receive(p.mirror, Operating(Some(until))))
    case SetMode(unlimited) =>
      Pair(Next(p.row, ChannelRow.SetUnlimited(unlimited), at), Receive(p.mirror, Mode(unlimited)))
    case FrozenElsewhere =>
      var (row, reply) := Execute(p.row, Pause, at);
      Pair(row, if reply == Affected(1) then Receive(p.mirror, PausedNotice(p.row.deadline, at)) else p.mirror)
    case ThawedElsewhere =>
      var (row, reply) := Execute(p.row, Resume, at);
      Pair(row, if reply.Returned? then Receive(p.mirror, Restarted(reply.deadline)) else p.mirror)
    case Evaluated(ownerPresent) => Evaluation(p, ownerPresent, at)
  }

  /**
   The changes a mirror does not follow. The row alone forgets a frozen remainder: a paused channel becomes
   unlimited or is reopened without an end. The mirror alone freezes: the remainder is too long for the
   column. The row alone freezes: less than a second is left and another node's notice rounds it to zero, or
   the node itself freezes a channel whose time has run out.
   */
  predicate LeavesBehind(c: Chan, change: Change, at: int) {
    match change
    case SetMode(unlimited) => unlimited && c.frozen > 0
    case Start(deadline) => deadline.None? && c.frozen > 0
    case FrozenElsewhere =>
      !c.suspended && !c.unlimited && c.deadline.Some? && Remaining(c.deadline, at) < SECOND
    case Evaluated(ownerPresent) =>
      !ownerPresent && Freezes(c, at) && (FrozenSeconds(c.deadline.value, at) > INT4_MAX || c.deadline.value <= at)
    case _ => false
  }

  /** Rounding down what the row rounds up; a remainder the column can hold never wraps in the notice. */
  lemma NoticeIsWithinASecond(deadline: int, at: int)
    requires FrozenSeconds(deadline, at) <= INT4_MAX
    ensures var (secs, left) := (WholeSeconds(Remaining(Some(deadline), at)), Remaining(Some(deadline), at));
            && secs * SECOND <= left < secs * SECOND + SECOND
            && left <= FrozenSeconds(deadline, at) * SECOND < left + SECOND
            && 0 <= secs <= FrozenSeconds(deadline, at) <= secs + 1
  {
  }

  /** A mirror started from the row is in step with it, except beside a pause with no time left. */
  lemma FreshMirrorInStepIff(setup: Fleet.Setup, r: Row, conn: ConnID, user: UserID)
    requires RowInv(r)
    ensures InStep(Pair(r, FreshChan(Fleet.Snapshot(setup, r, conn, user)))) <==> r.pausedSecs != Some(0)
  {
  }

  lemma EvaluationKeepsInStepIff(p: Pair, ownerPresent: bool, at: int)
    requires RowInv(p.row) && InStep(p)
    ensures InStep(Evaluation(p, ownerPresent, at)) <==> !LeavesBehind(p.mirror, Evaluated(ownerPresent), at)
  {
    if !ownerPresent && Freezes(p.mirror, at) && FrozenSeconds(p.mirror.deadline.value, at) <= INT4_MAX {
      NoticeIsWithinASecond(p.mirror.deadline.value, at);
    }
  }

  /** Exactly which changes a mirror in step follows. */
  lemma ChangeKeepsInStepIff(p: Pair, change: Change, at: int)
    requires RowInv(p.row) && InStep(p)
    ensures InStep(Apply(p, change, at)) <==> !LeavesBehind(p.mirror, change, at)
  {
    match change
    case Evaluated(ownerPresent) => EvaluationKeepsInStepIff(p, ownerPresent, at);
    case FrozenElsewhere =>
      if PauseMatches(p.row) && FrozenSeconds(p.row.deadline.value, at) <= INT4_MAX {
        NoticeIsWithinASecond(p.row.deadline.value, at);
      }
    case _ =>
  }

  lemma ApplyKeepsRowInv(p: Pair, change: Change, at: int)
    requires RowInv(p.row)
    ensures RowInv(Apply(p, change, at).row)
  {
  }

  datatype Event = Event(change: Change, at: int)

  function Run(p: Pair, events: seq<Event>): Pair
    decreases |events|
  {
    if events == [] then p else Run(Apply(p, events[0].change, events[0].at), events[1..])
  }

  /** No change of the run leaves the mirror behind. */
  predicate Followed(p: Pair, events: seq<Event>)
    decreases |events|
  {
    events != [] ==>
      !LeavesBehind(p.mirror, events[0].change, events[0].at)
      && Followed(Apply(p, events[0].change, events[0].at), events[1..])
  }

  /** A node that hears every change stays in step with the row while nothing leaves it behind. */
  lemma {:induction false} MirrorStaysInStep(p: Pair, events: seq<Event>)
    requires RowInv(p.row) && InStep(p) && Followed(p, events)
    ensures InStep(Run(p, events)) && RowInv(Run(p, events).row)
    decreases |events|
  {
    if events != [] {
      ChangeKeepsInStepIff(p, events[0].change, events[0].at);
      ApplyKeepsRowInv(p, events[0].change, events[0].at);
      MirrorStaysInStep(Apply(p, events[0].change, events[0].at), events[1..]);
    }
  }

  /**
   What being behind such a pause means: with nothing frozen in its mirror the node resumes nothing when the
   owner returns, and the row stays paused without a deadline.
   */
  lemma ReturnMissesUnknownPause(p: Pair, at: int)
    requires RowInv(p.row) && p.row.pausedSecs.Some? && p.mirror.frozen == 0
    ensures var after := Evaluation(p, true, at);
            after.row == p.row && after.row.deadline.None? && after.mirror.frozen == 0 && !InStep(after)
  {
  }

  /** It happens: half a second is left when another node freezes, and its notice says zero. */
  lemma SubSecondPauseIsMissed(now: int, c: Chan)
    requires !c.suspended && !c.unlimited && c.frozen == 0 && c.deadline == Some(now + SECOND / 2)
    ensures var p := Pair(Row(None, c.deadline, None, false), c);
            var after := Apply(p, FrozenElsewhere, now);
            InStep(p) && after.row.pausedSecs == Some(1) && after.mirror.frozen == 0 && after.mirror.deadline.None?
  {
    assert CeilSeconds(SECOND / 2) == 1;
  }

  /** Opening or moving the end, closing, and the owner's return repair any mirror that has fallen behind. */
  lemma OneNoticeRepairs(p: Pair, change: Change, at: int)
    requires RowInv(p.row) && p.mirror.unlimited == p.row.unlimited
    requires match change
             case Close => p.row.suspendedAt.None?
             case Start(deadline) => deadline.Some?
             case Move(_) => p.row.suspendedAt.None?
             case ThawedElsewhere => ResumeMatches(p.row)
             case _ => false
    ensures InStep(Apply(p, change, at))
  {
  }
}
