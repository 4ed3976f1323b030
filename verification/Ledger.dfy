/**
 Conservation of booked operating time over pause/resume cycles of a row: what has been delivered
 plus what is left stays the booking, up to the rounding of each freeze.
 */
module Ledger {
  import opened Common
  import opened ChannelRow

  /** Operating time still owed at `now`: to the deadline while running, the frozen seconds while paused. */
  function TimeLeft(r: Row, now: int): int {
    if r.deadline.Some? then r.deadline.value - now
    else if r.pausedSecs.Some? then r.pausedSecs.value * SECOND
    else 0
  }

  /** Time during which a deadline was running, from `since` to the last call. */
  function Delivered(r: Row, since: int, calls: seq<Call>): int
    decreases |calls|
  {
    if calls == [] then 0
    else
      (if r.deadline.Some? then calls[0].at - since else 0)
      + Delivered(Next(r, calls[0].statement, calls[0].at), calls[0].at, calls[1..])
  }

  /** How late the effective pauses came: a pause after its deadline writes off the overrun. */
  function Overrun(r: Row, calls: seq<Call>): int
    decreases |calls|
  {
    if calls == [] then 0
    else
      var (next, reply) := Execute(r, calls[0].statement, calls[0].at);
      (if calls[0].statement.Pause? && reply == Affected(1) then Max(0, calls[0].at - r.deadline.value) else 0)
      + Overrun(next, calls[1..])
  }

  function EndTime(since: int, calls: seq<Call>): int {
    if calls == [] then since else calls[|calls| - 1].at
  }

  predicate Cycles(calls: seq<Call>) {
    forall c :: c in calls ==> c.statement == Pause || c.statement == Resume
  }

  predicate TimesFrom(since: int, calls: seq<Call>) {
    forall i :: 0 <= i < |calls| ==> (if i == 0 then since else calls[i - 1].at) <= calls[i].at
  }

  lemma CeilSecondsBounds(d: int)
    ensures d <= CeilSeconds(d) * SECOND <= d + SECOND - 1
  {
  }

  /** One freeze or thaw keeps the time left, except that a freeze rounds up and forgives its overrun. */
  lemma StepKeepsTimeLeft(r: Row, s: Statement, now: int)
    requires RowInv(r) && (s == Pause || s == Resume)
    ensures var gain := TimeLeft(Next(r, s, now), now) - TimeLeft(r, now);
            if s == Pause && Execute(r, s, now).1 == Affected(1)
            then var late := Max(0, now - r.deadline.value); late <= gain <= late + SECOND - 1
            else gain == 0
  {
    if r.deadline.Some? {
      CeilSecondsBounds(r.deadline.value - now);
    }
  }

  /**
   Over every interleaving of pauses and resumes by any nodes, delivered time plus time left is the
   booking plus the forgiven overrun, plus less than one second for each freeze; time is never lost.
   */
  lemma {:induction false} BookedTimeIsConserved(r: Row, since: int, calls: seq<Call>)
    requires RowInv(r) && Cycles(calls) && TimesFrom(since, calls)
    ensures var total := Delivered(r, since, calls) + TimeLeft(Run(r, calls), EndTime(since, calls));
            var booked := TimeLeft(r, since) + Overrun(r, calls);
            booked <= total <= booked + PausesApplied(r, calls) * (SECOND - 1)
    decreases |calls|
  {
    if calls != [] {
      var c := calls[0];
      assert c in calls;
      var next := Next(r, c.statement, c.at);
      ExecuteKeepsRowInv(r, c.statement, c.at);
      StepKeepsTimeLeft(r, c.statement, c.at);
      assert TimesFrom(c.at, calls[1..]) by {
        forall i | 0 <= i < |calls[1..]| ensures (if i == 0 then c.at else calls[1..][i - 1].at) <= calls[1..][i].at {
          assert calls[i + 1 - 1].at <= calls[i + 1].at;
        }
      }
      BookedTimeIsConserved(next, c.at, calls[1..]);
      assert EndTime(c.at, calls[1..]) == EndTime(since, calls);
    }
  }

  /** Every pause that takes effect does so no later than the deadline it freezes. */
  predicate PausesOnTime(r: Row, calls: seq<Call>)
    decreases |calls|
  {
    calls != [] ==>
    && (calls[0].statement.Pause? && PauseMatches(r) ==> calls[0].at <= r.deadline.value)
    && PausesOnTime(Next(r, calls[0].statement, calls[0].at), calls[1..])
  }

  lemma {:induction false} OnTimePausesHaveNoOverrun(r: Row, calls: seq<Call>)
    requires PausesOnTime(r, calls)
    ensures Overrun(r, calls) == 0
    decreases |calls|
  {
    if calls != [] {
      OnTimePausesHaveNoOverrun(Next(r, calls[0].statement, calls[0].at), calls[1..]);
    }
  }

  /** With punctual pauses, n effective freezes give away less than n seconds in all. */
  lemma PunctualCyclesGainUnderOneSecondEach(r: Row, since: int, calls: seq<Call>)
    requires RowInv(r) && Cycles(calls) && TimesFrom(since, calls) && PausesOnTime(r, calls)
    ensures var total := Delivered(r, since, calls) + TimeLeft(Run(r, calls), EndTime(since, calls));
            var n := PausesApplied(r, calls);
            && TimeLeft(r, since) <= total <= TimeLeft(r, since) + n * SECOND
            && (n > 0 ==> total < TimeLeft(r, since) + n * SECOND)
  {
    BookedTimeIsConserved(r, since, calls);
    OnTimePausesHaveNoOverrun(r, calls);
  }
}
