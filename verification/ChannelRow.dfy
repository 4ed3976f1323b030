/**
 The operating-hours columns of one `channels` row, and the guarded UPDATEs that any number of
 nodes issue against it.
 */
module ChannelRow {
  import opened Common

  datatype Row = Row(
    suspendedAt: Option<int>,  // None: the channel is open
    deadline: Option<int>,     // operating_deadline
    pausedSecs: Option<int>,   // operating_paused_remaining_seconds
    unlimited: bool)           // operating_unlimited

  datatype Statement =
    | SuspendIfActive
    | ResumeIfSuspended
    | StartOperating(deadline: Option<int>)
    | SetDeadline(deadline: Option<int>)
    | Pause
    | Resume
    | SetUnlimited(unlimited: bool)

  /** What the database answers: a row count, a RETURNING value, or an int4 overflow. */
  datatype Reply = Affected(rows: nat) | Returned(deadline: int) | NoRows | OutOfRange

  /** A freshly created channel is suspended and books no operating time. */
  function Created(now: int): Row {
    Row(Some(now), None, None, false)
  }

  /** CEIL of a duration in seconds. */
  function CeilSeconds(duration: int): int {
    -((-duration) / SECOND)
  }

  /** GREATEST(0, CEIL(EXTRACT(EPOCH FROM (deadline - now)))), before the cast to int4. */
  function FrozenSeconds(deadline: int, now: int): int {
    Max(0, CeilSeconds(deadline - now))
  }

  predicate PauseMatches(r: Row) {
    r.suspendedAt.None? && r.deadline.Some? && !r.unlimited && r.pausedSecs.None?
  }

  predicate ResumeMatches(r: Row) {
    r.suspendedAt.None? && r.pausedSecs.Some?
  }

  /** The row and the reply after one statement executed at `now`. */
  function Execute(r: Row, s: Statement, now: int): (Row, Reply) {
    match s
    case SuspendIfActive =>
      if r.suspendedAt.None? then (Row(Some(now), None, None, r.unlimited), Affected(1)) else (r, Affected(0))
    case ResumeIfSuspended =>
      if r.suspendedAt.Some? then (r.(suspendedAt := None), Affected(1)) else (r, Affected(0))
    case StartOperating(deadline) =>
      (Row(None, deadline, None, r.unlimited), Affected(1))
    case SetDeadline(deadline) =>
      if r.suspendedAt.None? then (r.(deadline := deadline, pausedSecs := None), Affected(1)) else (r, Affected(0))
    case Pause =>
      if !PauseMatches(r) then (r, Affected(0))
      else
        var secs := FrozenSeconds(r.deadline.value, now);
        if secs > INT4_MAX then (r, OutOfRange)
        else (r.(deadline := None, pausedSecs := Some(secs)), Affected(1))
    case Resume =>
      if !ResumeMatches(r) then (r, NoRows)
      else
        var deadline := now + r.pausedSecs.value * SECOND;
        (r.(deadline := Some(deadline), pausedSecs := None), Returned(deadline))
    case SetUnlimited(unlimited) =>
      if unlimited then (r.(unlimited := true, deadline := None, pausedSecs := None), Affected(1))
      else (r.(unlimited := false), Affected(1))
  }

  function Next(r: Row, s: Statement, now: int): Row {
    Execute(r, s, now).0
  }

  /**
   A suspended row books nothing, an unlimited one has no frozen remainder, and a running deadline and a
   frozen remainder exclude each other.
   */
  predicate RowInv(r: Row) {
    && (r.suspendedAt.Some? ==> r.deadline.None? && r.pausedSecs.None?)
    && (r.deadline.Some? ==> r.pausedSecs.None?)
    && (r.unlimited ==> r.pausedSecs.None?)
    && (r.pausedSecs.Some? ==> 0 <= r.pausedSecs.value <= INT4_MAX)
  }

  lemma ExecuteKeepsRowInv(r: Row, s: Statement, now: int)
    requires RowInv(r)
    ensures RowInv(Next(r, s, now))
  {
  }

  // ---- column by column --------------------------------------------------------------------------

  /** A new channel is suspended from the start, limited, with nothing booked and nothing frozen. */
  lemma NewChannelIsClosed(now: int)
    ensures var r := Created(now);
            r.suspendedAt == Some(now) && r.deadline.None? && r.pausedSecs.None? && !r.unlimited
  {
  }

  /** Only closing suspends, at the instant of the first closing, and only reopening or starting lifts that. */
  lemma SuspensionColumn(r: Row, s: Statement, now: int)
    ensures Next(r, s, now).suspendedAt ==
              if s == SuspendIfActive then (if r.suspendedAt.None? then Some(now) else r.suspendedAt)
              else if s == ResumeIfSuspended || s.StartOperating? then None
              else r.suspendedAt
  {
  }

  /** Only the switch changes the mode. */
  lemma ModeColumn(r: Row, s: Statement, now: int)
    ensures Next(r, s, now).unlimited == if s.SetUnlimited? then s.unlimited else r.unlimited
  {
  }

  /** What books a deadline and what takes it away; a frozen remainder that is too long leaves it in place. */
  lemma DeadlineColumn(r: Row, s: Statement, now: int)
    requires RowInv(r)
    ensures var open := r.suspendedAt.None?;
            Next(r, s, now).deadline ==
              match s
              case SuspendIfActive => None
              case ResumeIfSuspended => r.deadline
              case StartOperating(deadline) => deadline
              case SetDeadline(deadline) => if open then deadline else r.deadline
              case Pause =>
                if !r.unlimited && r.deadline.Some? && CeilSeconds(r.deadline.value - now) <= INT4_MAX then None
                else r.deadline
              case Resume => if r.pausedSecs.Some? then Some(now + r.pausedSecs.value * 1_000_000_000) else r.deadline
              case SetUnlimited(unlimited) => if unlimited then None else r.deadline
  {
  }

  /** A remainder is frozen by a pause only, in seconds rounded up and never negative; most statements drop it. */
  lemma PauseColumn(r: Row, s: Statement, now: int)
    requires RowInv(r)
    ensures var secs := Next(r, s, now).pausedSecs;
            match s
            case Pause =>
              if r.unlimited || r.deadline.None? || CeilSeconds(r.deadline.value - now) > INT4_MAX
              then secs == r.pausedSecs
              else
                && secs.Some? && 0 <= secs.value
                && (now < r.deadline.value ==> (secs.value - 1) * 1_000_000_000 < r.deadline.value - now
                                               && r.deadline.value - now <= secs.value * 1_000_000_000)
                && (r.deadline.value <= now ==> secs.value == 0)
            case SetUnlimited(unlimited) => secs == if unlimited then None else r.pausedSecs
            case ResumeIfSuspended => secs == r.pausedSecs
            case _ => secs.None?
  {
  }

  /** A statement reports a changed row exactly when its guard held, and what it left out it left alone. */
  lemma RepliesTellTheTruth(r: Row, s: Statement, now: int)
    requires RowInv(r)
    ensures var (next, reply) := Execute(r, s, now);
            && (reply == Affected(0) || reply == NoRows || reply == OutOfRange ==> next == r)
            && (reply.Returned? ==> s == Resume && r.pausedSecs.Some? && next.deadline == Some(reply.deadline))
            && (s == Resume ==> (reply == NoRows <==> r.pausedSecs.None?) && !reply.Affected?)
            && (s == SuspendIfActive || s.SetDeadline? ==> reply == Affected(if r.suspendedAt.None? then 1 else 0))
            && (s == ResumeIfSuspended ==> reply == Affected(if r.suspendedAt.Some? then 1 else 0))
            && (s.StartOperating? || s.SetUnlimited? ==> reply == Affected(1))
            && (s == Pause ==> reply == if r.unlimited || r.deadline.None? then Affected(0)
                                        else if CeilSeconds(r.deadline.value - now) > INT4_MAX then OutOfRange
                                        else Affected(1))
  {
  }

  // ---- histories ---------------------------------------------------------------------------------

  /** One statement of the history of a row, issued by whichever node. */
  datatype Call = Call(statement: Statement, at: int)

  function Run(r: Row, calls: seq<Call>): Row
    decreases |calls|
  {
    if calls == [] then r else Run(Next(r, calls[0].statement, calls[0].at), calls[1..])
  }

  /** Every row reachable from creation, by any statements in any order, is consistent. */
  lemma {:induction false} ReachableRowsConsistent(r: Row, calls: seq<Call>)
    requires RowInv(r)
    ensures RowInv(Run(r, calls))
    decreases |calls|
  {
    if calls != [] {
      ExecuteKeepsRowInv(r, calls[0].statement, calls[0].at);
      ReachableRowsConsistent(Next(r, calls[0].statement, calls[0].at), calls[1..]);
    }
  }

  /** Total rows that the pauses among `calls` report as changed. */
  function PausesApplied(r: Row, calls: seq<Call>): nat
    decreases |calls|
  {
    if calls == [] then 0
    else
      var (next, reply) := Execute(r, calls[0].statement, calls[0].at);
      (if calls[0].statement.Pause? && reply == Affected(1) then 1 else 0) + PausesApplied(next, calls[1..])
  }

  predicate AllPauses(calls: seq<Call>) {
    forall c :: c in calls ==> c.statement == Pause
  }

  /** Statements that neither resume, restart, close nor switch a paused channel to unlimited. */
  predicate LeavesPauseAlone(s: Statement) {
    s == Pause || s == ResumeIfSuspended || s == SetUnlimited(false)
  }

  lemma {:induction false} FrozenRemainderStays(r: Row, calls: seq<Call>)
    requires RowInv(r) && r.pausedSecs.Some?
    requires forall c :: c in calls ==> LeavesPauseAlone(c.statement)
    ensures Run(r, calls).pausedSecs == r.pausedSecs && Run(r, calls).deadline == None
    ensures Run(r, calls).suspendedAt == None
    ensures PausesApplied(r, calls) == 0
    decreases |calls|
  {
    if calls != [] {
      assert calls[0] in calls;
      FrozenRemainderStays(Next(r, calls[0].statement, calls[0].at), calls[1..]);
    }
  }

  /**
   However many nodes race to pause a running channel, exactly one UPDATE takes effect (the first)
   and the row keeps the remainder frozen at that instant.
   */
  lemma {:induction false} RacingPausesFreezeOnce(r: Row, calls: seq<Call>)
    requires RowInv(r) && PauseMatches(r)
    requires calls != [] && AllPauses(calls)
    requires FrozenSeconds(r.deadline.value, calls[0].at) <= INT4_MAX
    ensures PausesApplied(r, calls) == 1
    ensures Run(r, calls) == r.(deadline := None, pausedSecs := Some(FrozenSeconds(r.deadline.value, calls[0].at)))
  {
    assert calls[0] in calls;
    var first := Next(r, Pause, calls[0].at);
    FrozenRemainderStays(first, calls[1..]);
    PausesDoNotTouchMode(first, calls[1..]);
  }

  lemma {:induction false} PausesDoNotTouchMode(r: Row, calls: seq<Call>)
    requires AllPauses(calls)
    ensures Run(r, calls).unlimited == r.unlimited
    decreases |calls|
  {
    if calls != [] {
      assert calls[0] in calls;
      PausesDoNotTouchMode(Next(r, Pause, calls[0].at), calls[1..]);
    }
  }

  /**
   `operating_unlimited` does not imply a NULL deadline: switching the mode on clears the deadline,
   and exactly the statements that book a deadline on an open or restarted row bring it back.
   */
  lemma UnlimitedDeadlineReturnsExactlyWhenBooked(r: Row, s: Statement, now: int)
    requires RowInv(r) && r.unlimited && r.deadline.None?
    ensures Next(r, s, now).unlimited && Next(r, s, now).deadline.Some? <==>
            || (s.StartOperating? && s.deadline.Some?)
            || (s.SetDeadline? && s.deadline.Some? && r.suspendedAt.None?)
  {
  }

  lemma UnlimitedWithDeadlineIsReachable(now: int)
    ensures var r := Run(Created(now), [Call(SetUnlimited(true), now), Call(StartOperating(Some(now + HOUR)), now)]);
            r.unlimited && r.deadline == Some(now + HOUR)
  {
    var calls := [Call(SetUnlimited(true), now), Call(StartOperating(Some(now + HOUR)), now)];
    var r1 := Next(Created(now), SetUnlimited(true), now);
    assert calls[1..] == [Call(StartOperating(Some(now + HOUR)), now)];
    assert Run(Created(now), calls) == Run(r1, calls[1..]) == Run(Next(r1, calls[1].statement, now), []);
  }

  /** The row itself: each query updates its columns in place. */
  class ChannelRecord {
    var suspendedAt: Option<int>
    var deadline: Option<int>
    var pausedSecs: Option<int>
    var unlimited: bool

    ghost function View(): Row
      reads this
    {
      Row(suspendedAt, deadline, pausedSecs, unlimited)
    }

    /** CreateChannel. */
    constructor (now: int)
      ensures View() == Created(now) && RowInv(View())
    {
      suspendedAt, deadline, pausedSecs, unlimited := Some(now), None, None, false;
    }

    method SuspendChannelIfActive(now: int) returns (affected: nat)
      requires RowInv(View())
      modifies this
      ensures RowInv(View())
      ensures (View(), Affected(affected)) == Execute(old(View()), SuspendIfActive, now)
    {
      affected := 0;
      if suspendedAt.None? {
        suspendedAt, deadline, pausedSecs := Some(now), None, None;
        affected := 1;
      }
    }

    method ResumeChannelIfSuspended(ghost now: int) returns (affected: nat)
      requires RowInv(View())
      modifies this`suspendedAt
      ensures RowInv(View())
      ensures (View(), Affected(affected)) == Execute(old(View()), ResumeIfSuspended, now)
    {
      affected := 0;
      if suspendedAt.Some? {
        suspendedAt := None;
        affected := 1;
      }
    }

    method StartChannelOperating(operatingDeadline: Option<int>, ghost now: int) returns (affected: nat)
      modifies this
      ensures RowInv(View())
      ensures (View(), Affected(affected)) == Execute(old(View()), StartOperating(operatingDeadline), now)
    {
      suspendedAt, deadline, pausedSecs := None, operatingDeadline, None;
      affected := 1;
    }

    method SetChannelOperatingDeadline(operatingDeadline: Option<int>, ghost now: int) returns (affected: nat)
      requires RowInv(View())
      modifies this`deadline, this`pausedSecs
      ensures RowInv(View())
      ensures (View(), Affected(affected)) == Execute(old(View()), SetDeadline(operatingDeadline), now)
    {
      affected := 0;
      if suspendedAt.None? {
        deadline, pausedSecs := operatingDeadline, None;
        affected := 1;
      }
    }

    method PauseChannelOperating(now: int) returns (reply: Reply)
      requires RowInv(View())
      modifies this`deadline, this`pausedSecs
      ensures RowInv(View())
      ensures (View(), reply) == Execute(old(View()), Pause, now)
    {
      if suspendedAt.Some? || deadline.None? || unlimited || pausedSecs.Some? {
        return Affected(0);
      }
      var secs := CeilSeconds(deadline.value - now);
      if secs < 0 {
        secs := 0;
      }
      if secs > INT4_MAX {
        return OutOfRange;
      }
      pausedSecs, deadline := Some(secs), None;
      return Affected(1);
    }

    method ResumeChannelOperating(now: int) returns (reply: Reply)
      requires RowInv(View())
      modifies this`deadline, this`pausedSecs
      ensures RowInv(View())
      ensures (View(), reply) == Execute(old(View()), Resume, now)
    {
      if suspendedAt.Some? || pausedSecs.None? {
        return NoRows;
      }
      deadline, pausedSecs := Some(now + pausedSecs.value * SECOND), None;
      return Returned(deadline.value);
    }

    method SetChannelOperatingUnlimited(value: bool, ghost now: int)
      requires RowInv(View())
      modifies this`deadline, this`pausedSecs, this`unlimited
      ensures RowInv(View())
      ensures View() == Next(old(View()), SetUnlimited(value), now)
    {
      unlimited := value;
      deadline := if value then None else deadline;
      pausedSecs := if value then None else pausedSecs;
    }
  }
}
