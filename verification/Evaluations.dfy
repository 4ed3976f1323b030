/** What evaluations, joins and leaves do to the timer, the mirror and the outside, told field by field. */
module Evaluations {
  import opened Common
  import opened NodeState

  /** The owner counts as present with a connection here, or active anywhere. */
  predicate Present(c: Chan, ownerActive: bool) {
    ownerActive || exists conn :: conn in c.clients && c.clients[conn] == c.ownerID
  }

  /** The instant at which a counted or beginning absence uses up the grace. */
  function GraceEnd(c: Chan, now: int): int {
    (match c.absentSince case Some(t) => t case None => now) + c.grace.duration
  }

  /** There is running time to freeze and the grace, counted from now, ends no later than it. */
  predicate StopsTheClock(c: Chan, now: int) {
    && c.grace.enabled && c.frozen == 0 && c.deadline.Some?
    && (c.grace.duration <= c.deadline.value - now || c.grace.duration <= 0)
  }

  /** With the owner there, a channel closes at its booked end; a frozen remainder is booked anew from now. */
  lemma PresentOwnerArmsBooking(l: Local, ownerActive: bool, now: int, pauseOk: bool, reply: ResumeReply)
    requires l.chan.Some? && l.chan.value.ownerID != 0 && Present(l.chan.value, ownerActive)
    ensures var (c, timer) := (l.chan.value, Evaluate(l, ownerActive, now, pauseOk, reply).0.timer);
            timer == if c.suspended || c.unlimited then None
                     else if c.frozen > 0 then Some(now + c.frozen) else c.deadline
  {
  }

  /** With the owner away it closes at the earlier of booked end and grace end; a stopping clock, with the grace. */
  lemma AbsentOwnerArmsEarlierEnd(l: Local, now: int, pauseOk: bool, reply: ResumeReply)
    requires l.chan.Some? && l.chan.value.ownerID != 0 && !Present(l.chan.value, false)
    ensures var (c, timer) := (l.chan.value, Evaluate(l, false, now, pauseOk, reply).0.timer);
            timer == if c.suspended || c.unlimited then None
                     else if !c.grace.enabled then c.deadline
                     else if c.deadline.Some? && c.deadline.value < GraceEnd(c, now) && !StopsTheClock(c, now)
                     then c.deadline
                     else Some(GraceEnd(c, now))
  {
  }

  /** A channel without a known owner, or without a mirror, is left alone. */
  lemma UnknownOwnerIsLeftAlone(l: Local, ownerActive: bool, now: int, pauseOk: bool, reply: ResumeReply)
    requires l.chan.Some? ==> l.chan.value.ownerID == 0
    ensures Evaluate(l, ownerActive, now, pauseOk, reply) == (l, [])
  {
  }

  /** Of the mirror an evaluation changes the deadline, the frozen remainder and the count of the absence only. */
  lemma EvaluationTouchesOnlyTime(l: Local, ownerActive: bool, now: int, pauseOk: bool, reply: ResumeReply)
    requires l.chan.Some?
    ensures var (c, after) := (l.chan.value, Evaluate(l, ownerActive, now, pauseOk, reply).0.chan);
            after.Some? && after.value == c.(deadline := after.value.deadline, frozen := after.value.frozen,
                                             absentSince := after.value.absentSince)
  {
  }

  /** The owner's return ends the absence and sets a stopped clock going again; a running one goes on. */
  lemma ReturnEndsAbsence(l: Local, ownerActive: bool, now: int, pauseOk: bool, reply: ResumeReply)
    requires l.chan.Some? && l.chan.value.ownerID != 0 && Present(l.chan.value, ownerActive)
    ensures var (c, after) := (l.chan.value, Evaluate(l, ownerActive, now, pauseOk, reply).0.chan.value);
            && after.absentSince.None?
            && (c.frozen > 0 ==> after.deadline == Some(now + c.frozen) && after.frozen == 0)
            && (c.frozen <= 0 ==> after.deadline == c.deadline && after.frozen == c.frozen)
  {
  }

  /** An absence is counted from when it is first noticed, where auto-close applies; then the clock may stop. */
  lemma AbsenceIsCountedOnce(l: Local, now: int, pauseOk: bool, reply: ResumeReply)
    requires l.chan.Some? && l.chan.value.ownerID != 0 && !Present(l.chan.value, false)
    ensures var (c, after) := (l.chan.value, Evaluate(l, false, now, pauseOk, reply).0.chan.value);
            var counts := !c.suspended && !c.unlimited && c.grace.enabled;
            && after.absentSince == (if counts && c.absentSince.None? then Some(now) else c.absentSince)
            && (counts && StopsTheClock(c, now) ==>
                  && after.deadline.None?
                  && after.frozen == (if now < c.deadline.value then c.deadline.value - now else 0))
            && (!(counts && StopsTheClock(c, now)) ==> after.deadline == c.deadline && after.frozen == c.frozen)
  {
  }

  /** A stopping clock is put into the row, and announced with the closing time that has been armed. */
  lemma StoppingIsPersisted(l: Local, now: int, pauseOk: bool, reply: ResumeReply)
    requires l.chan.Some? && l.chan.value.ownerID != 0 && !Present(l.chan.value, false)
    ensures var (c, (after, effects)) := (l.chan.value, Evaluate(l, false, now, pauseOk, reply));
            if !c.suspended && !c.unlimited && StopsTheClock(c, now) then
              && after.timer.Some?
              && var notice := PublishPaused(after.timer.value, WholeSeconds(after.chan.value.frozen));
                 effects == if pauseOk then [PauseRow, notice] else [PauseRow]
            else effects == []
  {
  }

  /** A clock set going is put into the row and announced with the deadline the row then has, or else the node's. */
  lemma ResumingIsPersisted(l: Local, ownerActive: bool, now: int, pauseOk: bool, reply: ResumeReply)
    requires l.chan.Some? && l.chan.value.ownerID != 0 && Present(l.chan.value, ownerActive)
    ensures var (c, (after, effects)) := (l.chan.value, Evaluate(l, ownerActive, now, pauseOk, reply));
            if c.frozen > 0 then
              && after.chan.value.deadline.Some?
              && effects == match reply
                            case ResumeFailed => [ResumeRow]
                            case ResumedAt(Some(d)) => [ResumeRow, PublishRestarted(d)]
                            case ResumedAt(None) => [ResumeRow, PublishRestarted(after.chan.value.deadline.value)]
            else effects == []
  {
  }

  // ---- leaving and joining -----------------------------------------------------------------------

  /**
   The timer and the effects that the last client leaves behind: nothing changes where nothing is timed; with
   auto-close a stopped or stopping clock runs out with the grace; otherwise the booked end stands.
   */
  lemma LastLeaveArms(c: Chan, timer: Option<int>, now: int, pauseOk: bool)
    ensures var (armed, effects) := LastLeave(c, timer, now, pauseOk);
            var stops := StopsTheClock(c.(frozen := 0), now);
            if c.ownerID == 0 || c.suspended || c.unlimited then armed == timer && effects == []
            else if c.grace.enabled && (c.frozen > 0 || stops) then
              && armed == Some(GraceEnd(c, now))
              && effects == if c.frozen > 0 then []
                            else if pauseOk then
                              [PauseRow, PublishPaused(GraceEnd(c, now), WholeSeconds(Max(c.deadline.value - now, 0)))]
                            else [PauseRow]
            else armed == (if c.deadline.Some? then c.deadline else timer) && effects == []
  {
  }

  /** A user still has a connection to this node once `conn` is gone. */
  predicate StaysConnected(c: Chan, conn: ConnID, user: UserID) {
    exists other :: other in c.clients && other != conn && c.clients[other] == user
  }

  /**
   Somebody leaves the presence store with their last connection to this node, and not before. The mirror
   survives exactly while somebody else is connected; after that only what LastLeave arms remains.
   */
  lemma LeavingOnlyOrLast(l: Local, conn: ConnID, user: UserID, now: int, pauseOk: bool)
    requires l.chan.Some?
    ensures var c := l.chan.value;
            var (after, effects) := Leave(l, conn, user, now, pauseOk);
            var gone := if StaysConnected(c, conn, user) then [] else [RemoveActive(user)];
            if c.clients.Keys <= {conn} then
              var (timer, left) := LastLeave(c.(clients := map[]), l.timer, now, pauseOk);
              after == Local(None, timer) && effects == gone + left
            else after == Local(Some(c.(clients := c.clients - {conn})), l.timer) && effects == gone
  {
    var (all, left) := (l.chan.value.clients, l.chan.value.clients - {conn});
    assert left.Keys == all.Keys - {conn};
    assert left == map[] <==> left.Keys == {};
    if StaysConnected(l.chan.value, conn, user) {
      var other :| other in all && other != conn && all[other] == user;
      assert other in left && left[other] == user;
    }
  }

  /** NULL is the server's default, which zero turns off; a negative number is never; any other is its seconds. */
  lemma GraceSetting(serverDefault: int, seconds: Option<int>)
    ensures var grace := ResolveGrace(serverDefault, seconds);
            && (seconds.None? ==> grace.enabled == (serverDefault > 0) && grace.duration == serverDefault)
            && (seconds.Some? && seconds.value < 0 ==> !grace.enabled)
            && (seconds.Some? && seconds.value >= 0 ==>
                  grace.enabled && grace.duration == seconds.value * 1_000_000_000)
  {
  }

  /** A first client starts a mirror with what the row said; a later one joins it; a stale one is forgotten first. */
  lemma JoiningStartsOrFollows(l: Local, client: Client, serverDefault: int)
    ensures var (after, effects) := Join(l, client, serverDefault, true);
            var stale := l.chan.Some? && l.chan.value.channelID != client.channelID;
            && after.chan.Some?
            && after.chan.value.grace == ResolveGrace(serverDefault, client.graceSeconds)
            && after.timer == (if stale then None else l.timer)
            && effects == (if stale then [ClearActive, MarkActive(client.user)] else [MarkActive(client.user)])
            && if l.chan.Some? && !stale then
                 after.chan.value == l.chan.value.(clients := l.chan.value.clients[client.conn := client.user],
                                                   grace := after.chan.value.grace)
               else
                 var c := after.chan.value;
                 && c.clients == map[client.conn := client.user] && c.channelID == client.channelID
                 && c.ownerID == client.ownerID && c.suspended == client.suspended && c.unlimited == client.unlimited
                 && c.deadline == client.deadline && c.absentSince.None?
                 && c.frozen == (if client.pausedSecs.GetOr(0) > 0 then client.pausedSecs.value * 1_000_000_000 else 0)
  {
  }

  /** A failed subscription keeps a mirror from starting and joins nobody; one that runs needs no subscription. */
  lemma FailedSubscription(l: Local, client: Client, serverDefault: int)
    ensures var (failed, joined) := (Join(l, client, serverDefault, false), Join(l, client, serverDefault, true));
            if l.chan.None? then failed == (l, [])
            else if l.chan.value.channelID != client.channelID then failed == (Local(None, None), [ClearActive])
            else failed == joined
  {
  }

  // ---- notices -----------------------------------------------------------------------------------

  /** Only closing and a booked end stop the count of an absence; no notice touches clients, owner or grace. */
  lemma NoticesAndAbsence(c: Chan, m: Message)
    ensures var after := Receive(c, m);
            && after.absentSince ==
                 (if m == Suspended || m.Restarted? || (m.Operating? && m.deadline.Some?) then None else c.absentSince)
            && after.clients == c.clients && after.ownerID == c.ownerID && after.channelID == c.channelID
            && after.grace == c.grace
  {
  }

  /** Open or closed, and with a limit or without, is only for the notices that say so. */
  lemma NoticesAndMode(c: Chan, m: Message)
    ensures Receive(c, m).suspended == if m.Paused? || m.Mode? then c.suspended else m == Suspended
    ensures Receive(c, m).unlimited == if m.Mode? then m.unlimited else c.unlimited
  {
  }

  /** The hours after a notice: what it books, or nothing, or what was there. */
  lemma NoticesAndHours(c: Chan, m: Message)
    ensures var after := Receive(c, m);
            && after.deadline ==
                 (match m
                  case Suspended => None
                  case Resumed => None
                  case Operating(deadline) => deadline
                  case Restarted(at) => Some(at)
                  case Paused(_) => if c.suspended || c.unlimited then c.deadline else None
                  case Mode(unlimited) => if unlimited then None else c.deadline)
            && after.frozen ==
                 (if m == Suspended || m.Restarted? || (m.Operating? && m.deadline.Some?) then 0
                  else if m.Paused? && m.secs > 0 && !c.suspended && !c.unlimited then m.secs * 1_000_000_000
                  else c.frozen)
  {
  }

  /** The published seconds are the low 32 bits, as a signed number, of the seconds rounded down. */
  lemma PublishedSecondsWrap(remaining: int)
    ensures var secs := WholeSeconds(remaining);
            && -0x8000_0000 <= secs < 0x8000_0000 && (secs - remaining / 1_000_000_000) % 0x1_0000_0000 == 0
  {
  }
}
