/** Properties of one node's mirror: what every event keeps, and how the two closing paths agree. */
module HubTheorems {
  import opened Common
  import opened NodeState

  /**
   A suspended mirror books nothing; a frozen remainder excludes a deadline; an absence began in the
   past; and, with auto-close enabled, an absence beside a running deadline closes later than it.
   */
  predicate ChanInv(c: Chan, clock: int) {
    && (c.suspended ==> c.deadline.None? && c.frozen == 0 && c.absentSince.None?)
    && c.frozen >= 0
    && (c.frozen > 0 ==> c.deadline.None?)
    && (c.absentSince.Some? ==> c.absentSince.value <= clock)
    && (c.grace.enabled && c.absentSince.Some? && c.deadline.Some? ==>
          c.absentSince.value + c.grace.duration > c.deadline.value)
  }

  predicate LocalInv(l: Local, clock: int, grace: Grace) {
    l.chan.Some? ==> ChanInv(l.chan.value, clock) && l.chan.value.grace == grace
  }

  lemma ReceiveKeepsInv(c: Chan, m: Message, clock: int)
    requires ChanInv(c, clock)
    ensures ChanInv(Receive(c, m), clock) && Receive(c, m).grace == c.grace
  {
  }

  lemma AssessKeepsInv(c: Chan, present: bool, now: int)
    requires ChanInv(c, now)
    ensures ChanInv(Assess(c, present, now), now)
  {
  }

  lemma EvaluateKeepsInv(l: Local, ownerActive: bool, now: int, pauseOk: bool, reply: ResumeReply, grace: Grace)
    requires LocalInv(l, now, grace)
    ensures LocalInv(Evaluate(l, ownerActive, now, pauseOk, reply).0, now, grace)
  {
    if l.chan.Some? {
      AssessKeepsInv(l.chan.value, OwnerPresent(l.chan.value, ownerActive), now);
    }
  }

  /** The snapshot a client carries satisfies what the row guarantees. */
  predicate SnapshotConsistent(client: Client) {
    && (client.suspended ==> client.deadline.None? && client.pausedSecs.None?)
    && (client.deadline.Some? ==> client.pausedSecs.None?)
  }

  lemma JoinKeepsInv(l: Local, client: Client, serverDefault: int, subscribeOk: bool, now: int, grace: Grace)
    requires LocalInv(l, now, grace) && SnapshotConsistent(client)
    requires ResolveGrace(serverDefault, client.graceSeconds) == grace
    ensures LocalInv(Join(l, client, serverDefault, subscribeOk).0, now, grace)
  {
  }

  /** Everything the invariant says apart from the comparison with the grace. */
  predicate CoreInv(c: Chan, clock: int) {
    ChanInv(c.(grace := Grace(0, false)), clock)
  }

  /** The client brings a grace that ends a counted absence before the running deadline. */
  predicate ShortensGrace(l: Local, client: Client, grace: Grace) {
    && l.chan.Some? && l.chan.value.channelID == client.channelID && grace.enabled
    && l.chan.value.absentSince.Some? && l.chan.value.deadline.Some?
    && l.chan.value.absentSince.value + grace.duration <= l.chan.value.deadline.value
  }

  /** A join follows whatever grace the client brings, and keeps the invariant exactly unless that one is too short. */
  lemma JoinWithAnyGrace(l: Local, client: Client, serverDefault: int, now: int)
    requires l.chan.Some? ==> ChanInv(l.chan.value, now)
    requires SnapshotConsistent(client)
    ensures var joined := Join(l, client, serverDefault, true).0;
            var grace := ResolveGrace(serverDefault, client.graceSeconds);
            && joined.chan.Some? && joined.chan.value.grace == grace && CoreInv(joined.chan.value, now)
            && (ChanInv(joined.chan.value, now) <==> !ShortensGrace(l, client, grace))
  {
  }

  lemma LeaveKeepsInv(l: Local, conn: ConnID, user: UserID, now: int, pauseOk: bool, grace: Grace)
    requires LocalInv(l, now, grace)
    ensures LocalInv(Leave(l, conn, user, now, pauseOk).0, now, grace)
  {
  }

  // ---- the last client leaving against evaluateSuspend -----------------------------------------

  /** The last-client branch arms the same closing time and attempts the same effects as an evaluation would. */
  predicate LeaveAgrees(c: Chan, timer: Option<int>, now: int, pauseOk: bool) {
    var (closing, effects) := LastLeave(c, timer, now, pauseOk);
    var (evaluated, evaluatedEffects) := Evaluate(Local(Some(c), timer), false, now, pauseOk, ResumeFailed);
    closing == evaluated.timer && effects == evaluatedEffects
  }

  /** The mirror the last client leaves behind: nobody connected, owner known, open and limited. */
  predicate Abandoned(c: Chan) {
    c.clients == map[] && c.ownerID != 0 && !c.suspended && !c.unlimited
  }

  /** The one case with a deadline in which the two differ: an old absence whose grace ends before the deadline. */
  predicate GraceShortened(c: Chan, now: int) {
    && c.grace.enabled && c.absentSince.Some? && c.deadline.Some?
    && c.grace.duration > Remaining(c.deadline, now)
    && c.absentSince.value + c.grace.duration < c.deadline.value
  }

  /**
   Exactly when the two copies of the auto-close logic agree, for every abandoned mirror in which a
   frozen remainder excludes a deadline.
   */
  lemma LeaveAgreesIff(c: Chan, timer: Option<int>, now: int, pauseOk: bool)
    requires Abandoned(c) && c.frozen >= 0 && (c.frozen > 0 ==> c.deadline.None?)
    ensures c.deadline.Some? ==> (LeaveAgrees(c, timer, now, pauseOk) <==> !GraceShortened(c, now))
    ensures c.grace.enabled && c.frozen > 0 ==> LeaveAgrees(c, timer, now, pauseOk)
    ensures c.deadline.None? && !(c.grace.enabled && c.frozen > 0) ==>
              (LeaveAgrees(c, timer, now, pauseOk) <==>
                 timer == if c.grace.enabled then Some(c.absentSince.GetOr(now) + c.grace.duration) else None)
  {
  }

  /** With a fixed grace every reachable mirror with time booked or paused is in the agreeing case. */
  lemma LastLeaveMatchesEvaluate(c: Chan, timer: Option<int>, now: int, pauseOk: bool)
    requires ChanInv(c, now) && Abandoned(c)
    requires c.deadline.Some? || (c.grace.enabled && c.frozen > 0)
    ensures LeaveAgrees(c, timer, now, pauseOk)
  {
    LeaveAgreesIff(c, timer, now, pauseOk);
  }

  /**
   A run that ends in disagreement: a client joins an hour-limited channel with fifty seconds left and sixty
   seconds of grace, and the owner's absence is noted; forty seconds later a client brings the grace that the
   owner has meanwhile shortened to twenty seconds, and both leave.
   */
  function ShortenedGraceRun(early: Client, late: Client): Local {
    var joined := Join(Local(None, None), early, 0, true).0;
    var noted := Evaluate(joined, false, 0, true, ResumeFailed).0;
    var rejoined := Join(noted, late, 0, true).0;
    Leave(rejoined, early.conn, early.user, 40 * SECOND, true).0
  }

  function Visitor(conn: ConnID, graceSeconds: int): Client {
    Client(conn, 2, 1, 7, Some(graceSeconds), false, Some(50 * SECOND), false, None)
  }

  /** An owner's shorter grace, applied while the absence is already counted, makes the copies disagree. */
  lemma ShortenedGraceDisagrees()
    ensures var l := ShortenedGraceRun(Visitor(1, 60), Visitor(2, 20));
            && SnapshotConsistent(Visitor(1, 60)) && SnapshotConsistent(Visitor(2, 20))
            && l.chan.Some? && l.chan.value.clients == map[2 := 2] && l.timer == Some(50 * SECOND)
            && !LeaveAgrees(l.chan.value.(clients := map[]), l.timer, 40 * SECOND, true)
  {
    var (early, late) := (Visitor(1, 60), Visitor(2, 20));
    var mirror := FreshChan(early).(clients := map[1 := 2], grace := Grace(60 * SECOND, true));
    var joined := Local(Some(mirror), None);
    assert Join(Local(None, None), early, 0, true).0 == joined;
    var noted := Local(Some(mirror.(absentSince := Some(0))), Some(50 * SECOND));
    assert Evaluate(joined, false, 0, true, ResumeFailed).0 == noted;
    var both := noted.chan.value.(clients := map[1 := 2, 2 := 2], grace := Grace(20 * SECOND, true));
    assert Join(noted, late, 0, true).0 == Local(Some(both), noted.timer);
    var left := both.(clients := map[2 := 2]);
    assert both.clients - {1} == left.clients;
    assert 2 in left.clients;
    assert ShortenedGraceRun(early, late) == Local(Some(left), noted.timer);
    assert GraceShortened(left.(clients := map[]), 40 * SECOND);
    LeaveAgreesIff(left.(clients := map[]), noted.timer, 40 * SECOND, true);
  }

  // ---- no drift while the owner is away --------------------------------------------------------

  /** What may happen while nothing but the node's own echo arrives: time passes, timers fire, ticks re-evaluate. */
  datatype AwayEvent = Reevaluate(at: int, pauseOk: bool) | OwnEcho(at: int, pauseOk: bool) | TimerFired

  predicate Absent(l: Local) {
    l.chan.Some? && l.chan.value.ownerID != 0 && !HasUser(l.chan.value.clients, l.chan.value.ownerID)
  }

  /** `echo` is the whole-second remainder the node itself published when it froze, if it did. */
  function AwayStep(l: Local, e: AwayEvent, echo: Option<int>): Local {
    match e
    case Reevaluate(at, pauseOk) => Evaluate(l, false, at, pauseOk, ResumeFailed).0
    case OwnEcho(at, pauseOk) =>
      if echo.None? || l.chan.None? then l
      else Evaluate(Local(Some(Receive(l.chan.value, Paused(echo.value))), l.timer), false, at, pauseOk, ResumeFailed).0
    case TimerFired => Local(l.chan, None)
  }

  function AwayRun(l: Local, events: seq<AwayEvent>, echo: Option<int>): Local
    decreases |events|
  {
    if events == [] then l else AwayRun(AwayStep(l, events[0], echo), events[1..], echo)
  }

  predicate NotBefore(events: seq<AwayEvent>, start: int) {
    && (forall e :: e in events && !e.TimerFired? ==> start <= e.at)
    && (forall i, j :: 0 <= i < j < |events| && !events[i].TimerFired? && !events[j].TimerFired? ==>
          events[i].at <= events[j].at)
  }

  function OwnPause(l: Local, at: int): Option<int> {
    if l.chan.Some? && Freezes(l.chan.value, at) then Some(WholeSeconds(Remaining(l.chan.value.deadline, at))) else None
  }

  /** The mirror has settled on a closing time: an evaluation with the owner away cannot move it. */
  predicate Settled(l: Local, closing: Option<int>, clock: int, echo: Option<int>) {
    && Absent(l)
    && ChanInv(l.chan.value, clock)
    && !Freezes(l.chan.value, clock)
    && (Pausable(l.chan.value) ==> l.chan.value.absentSince.Some?)
    && ClosingTime(l.chan.value, false, clock) == closing
    && (l.timer.Some? ==> l.timer == closing)
    && (echo.Some? ==> Pausable(l.chan.value) && l.chan.value.deadline.None?)
  }

  lemma FirstEvaluationSettles(l: Local, at: int, pauseOk: bool)
    requires Absent(l) && ChanInv(l.chan.value, at)
    ensures var first := Evaluate(l, false, at, pauseOk, ResumeFailed).0;
            Settled(first, first.timer, at, OwnPause(l, at))
  {
    AssessKeepsInv(l.chan.value, false, at);
  }

  lemma SettledStays(l: Local, closing: Option<int>, clock: int, echo: Option<int>, e: AwayEvent)
    requires Settled(l, closing, clock, echo)
    requires !e.TimerFired? ==> clock <= e.at
    ensures Settled(AwayStep(l, e, echo), closing, if e.TimerFired? then clock else e.at, echo)
    ensures e.Reevaluate? ==> AwayStep(l, e, echo).timer == closing
  {
  }

  /**
   While the owner stays away, every later evaluation arms exactly the closing time of the first:
   neither ticks, nor the node's own pause notice, nor a fired timer move it.
   */
  lemma {:induction false} AutoCloseNeverDrifts(
    l: Local, start: int, pauseOk: bool, events: seq<AwayEvent>, last: int, lastOk: bool)
    requires Absent(l) && ChanInv(l.chan.value, start)
    requires NotBefore(events + [Reevaluate(last, lastOk)], start)
    ensures var first := Evaluate(l, false, start, pauseOk, ResumeFailed).0;
            AwayRun(first, events + [Reevaluate(last, lastOk)], OwnPause(l, start)).timer == first.timer
  {
    var first := Evaluate(l, false, start, pauseOk, ResumeFailed).0;
    FirstEvaluationSettles(l, start, pauseOk);
    SettledRun(first, first.timer, start, OwnPause(l, start), events, Reevaluate(last, lastOk));
  }

  lemma {:induction false} SettledRun(l: Local, closing: Option<int>, clock: int, echo: Option<int>,
                                      events: seq<AwayEvent>, last: AwayEvent)
    requires Settled(l, closing, clock, echo) && last.Reevaluate?
    requires NotBefore(events + [last], clock)
    ensures AwayRun(l, events + [last], echo).timer == closing
    decreases |events|
  {
    var all := events + [last];
    var e := all[0];
    assert e in all;
    SettledStays(l, closing, clock, echo, e);
    if events == [] {
      assert all[1..] == [];
    } else {
      assert all[1..] == events[1..] + [last];
      var clock' := if e.TimerFired? then clock else e.at;
      assert NotBefore(all[1..], clock') by {
        forall x | x in all[1..] && !x.TimerFired? ensures clock' <= x.at {
          var k :| 0 <= k < |all[1..]| && all[1..][k] == x;
          assert all[k + 1] == x && all[0] == e;
        }
        forall i, j | 0 <= i < j < |all[1..]| && !all[1..][i].TimerFired? && !all[1..][j].TimerFired?
          ensures all[1..][i].at <= all[1..][j].at
        {
          assert all[i + 1] == all[1..][i] && all[j + 1] == all[1..][j];
        }
      }
      SettledRun(AwayStep(l, e, echo), closing, clock', echo, events[1..], last);
    }
  }

  /** Auto-close never extends opening time: the first closing time is no later than the deadline it replaces. */
  lemma AutoCloseNeverExtends(l: Local, start: int, pauseOk: bool)
    requires Absent(l) && ChanInv(l.chan.value, start)
    requires l.chan.value.deadline.Some? && !l.chan.value.suspended && !l.chan.value.unlimited
    ensures var first := Evaluate(l, false, start, pauseOk, ResumeFailed).0;
            first.timer.Some? && first.timer.value <= Max(start, l.chan.value.deadline.value)
  {
  }

  /**
   Evaluated before the booked end with the owner away, the channel closes at the earlier of the booked
   end and the end of the owner's grace, whether or not the remaining time was frozen on the way.
   */
  lemma ClosesAtEarlierOfBookingAndGrace(l: Local, now: int, pauseOk: bool)
    requires Absent(l) && ChanInv(l.chan.value, now) && Pausable(l.chan.value)
    requires l.chan.value.deadline.Some? && now <= l.chan.value.deadline.value
    ensures var c := l.chan.value;
            var graceEnd := c.absentSince.GetOr(now) + c.grace.duration;
            Evaluate(l, false, now, pauseOk, ResumeFailed).0.timer ==
            Some(if graceEnd < c.deadline.value then graceEnd else c.deadline.value)
  {
  }

  /**
   A pause followed by the owner's return gives back the remaining time, wherever the return falls; nothing
   comes back exactly when there was nothing left, which a grace of zero makes possible.
   */
  lemma ReturnGivesBackRemainingTime(c: Chan, away: int, back: int)
    requires ChanInv(c, away) && Freezes(c, away) && away <= back
    ensures var resumed := Assess(Assess(c, false, away), true, back);
            && resumed.frozen == 0 && resumed.absentSince.None?
            && resumed.deadline == if c.deadline.value > away then Some(back + (c.deadline.value - away)) else None
    ensures c.deadline.value <= away ==> c.grace.duration <= 0
  {
  }
}
