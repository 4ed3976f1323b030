/**
 What one node knows about one channel (its `localChannel` mirror and its suspend timer), and the
 effect of every event on it. A goroutine's `evaluateSuspend` is one step that takes the answers of
 the presence store and of the database as parameters.
 */
module NodeState {
  import opened Common

  type ConnID = nat
  type UserID = int

  /** The auto-close grace of a channel; not `enabled` means the owner's absence never closes it. */
  datatype Grace = Grace(duration: int, enabled: bool)

  /** `operatingPausedRemaining` is `frozen` (0: not paused); zero times are None. */
  datatype Chan = Chan(
    channelID: int,
    ownerID: UserID,  // 0: unknown
    clients: map<ConnID, UserID>,
    grace: Grace,
    suspended: bool,
    deadline: Option<int>,
    unlimited: bool,
    absentSince: Option<int>,
    frozen: int)

  datatype Local = Local(chan: Option<Chan>, timer: Option<int>)

  /** Statements and publications a node attempts, in order. */
  datatype Effect =
    | MarkActive(user: UserID)
    | RemoveActive(user: UserID)
    | ClearActive
    | PauseRow
    | PublishPaused(closing: int, secs: int)
    | ResumeRow
    | PublishRestarted(at: int)
    | SuspendRow
    | PublishSuspended

  /** Bus messages that change the mirror. `Restarted` is the `channel.operating` of a resumed pause. */
  datatype Message =
    | Suspended
    | Resumed
    | Operating(deadline: Option<int>)
    | Restarted(at: int)
    | Paused(secs: int)
    | Mode(unlimited: bool)

  /** The database's answer to ResumeChannelOperating: an error or no row, or the new deadline column. */
  datatype ResumeReply = ResumeFailed | ResumedAt(deadline: Option<int>)

  /** A connecting client with the snapshot of the channel row it carries. */
  datatype Client = Client(
    conn: ConnID,
    user: UserID,
    channelID: int,
    ownerID: UserID,
    graceSeconds: Option<int>,
    suspended: bool,
    deadline: Option<int>,
    unlimited: bool,
    pausedSecs: Option<int>)

  /** NULL means the server default (a default of 0 disables it), negative means never. */
  function ResolveGrace(serverDefault: int, seconds: Option<int>): Grace {
    match seconds
    case None => Grace(serverDefault, serverDefault > 0)
    case Some(s) => if s < 0 then Grace(0, false) else Grace(s * SECOND, true)
  }

  /** Go's int32(n): the low 32 bits as a signed number. */
  function ToInt32(n: int): int {
    var low := n % 0x1_0000_0000;
    if low >= 0x8000_0000 then low - 0x1_0000_0000 else low
  }

  /** The whole seconds a node publishes for a frozen remainder. */
  function WholeSeconds(remaining: int): int {
    ToInt32(remaining / SECOND)
  }

  predicate HasUser(clients: map<ConnID, UserID>, user: UserID) {
    exists c :: c in clients && clients[c] == user
  }

  function Remaining(deadline: Option<int>, now: int): int {
    if deadline.Some? then Max(deadline.value - now, 0) else 0
  }

  // ---- bus messages -------------------------------------------------------------------------

  function SetOperating(c: Chan, suspended: bool, deadline: Option<int>): Chan {
    var updated := c.(suspended := suspended, deadline := deadline);
    if suspended || deadline.Some? then updated.(frozen := 0, absentSince := None) else updated
  }

  function SetPaused(c: Chan, remaining: int): Chan {
    if c.suspended || c.unlimited then c
    else c.(deadline := None, frozen := if remaining > 0 then remaining else c.frozen)
  }

  function SetUnlimited(c: Chan, unlimited: bool): Chan {
    c.(unlimited := unlimited, deadline := if unlimited then None else c.deadline)
  }

  /** The fields after a bus message, before the re-evaluation that follows it. */
  function Receive(c: Chan, m: Message): Chan {
    match m
    case Suspended => SetOperating(c, true, None)
    case Resumed => SetOperating(c, false, None)
    case Operating(deadline) => SetOperating(c, false, deadline)
    case Restarted(at) => SetOperating(c, false, Some(at))
    case Paused(secs) => SetPaused(c, secs * SECOND)
    case Mode(unlimited) => SetUnlimited(c, unlimited)
  }

  // ---- evaluateSuspend ----------------------------------------------------------------------

  /** computeSuspendDeadlineLocked: when this channel should close, if ever. */
  function ClosingTime(c: Chan, present: bool, now: int): Option<int> {
    if c.suspended || c.unlimited then None
    else if present || !c.grace.enabled then c.deadline
    else
      var closing := c.absentSince.GetOr(now) + c.grace.duration;
      if c.deadline.None? || closing < c.deadline.value then Some(closing) else c.deadline
  }

  predicate Pausable(c: Chan) {
    !c.suspended && !c.unlimited && c.grace.enabled
  }

  /** The owner is away, time is running, and the grace ends no later than the booked time. */
  predicate Freezes(c: Chan, now: int) {
    Pausable(c) && c.frozen == 0 && c.deadline.Some? && c.grace.duration <= Remaining(c.deadline, now)
  }

  /** The fields after evaluateSuspend decided on pausing or resuming. */
  function Assess(c: Chan, present: bool, now: int): Chan {
    if present then
      var back := c.(absentSince := None);
      if c.frozen > 0 then back.(deadline := Some(now + c.frozen), frozen := 0) else back
    else if Pausable(c) then
      var away := c.(absentSince := Some(c.absentSince.GetOr(now)));
      if Freezes(c, now) then away.(frozen := Remaining(c.deadline, now), deadline := None) else away
    else c
  }

  function PauseEffects(closing: int, remaining: int, pauseOk: bool): seq<Effect> {
    [PauseRow] + if pauseOk then [PublishPaused(closing, WholeSeconds(remaining))] else []
  }

  function ResumeEffects(resumeAt: int, reply: ResumeReply): seq<Effect> {
    [ResumeRow] +
    match reply
    case ResumeFailed => []
    case ResumedAt(deadline) => [PublishRestarted(deadline.GetOr(resumeAt))]
  }

  function OwnerPresent(c: Chan, ownerActive: bool): bool {
    HasUser(c.clients, c.ownerID) || ownerActive
  }

  function EvaluateEffects(c: Chan, present: bool, now: int, pauseOk: bool, reply: ResumeReply): seq<Effect> {
    if !present && Freezes(c, now) then
      PauseEffects(c.absentSince.GetOr(now) + c.grace.duration, Remaining(c.deadline, now), pauseOk)
    else if present && c.frozen > 0 then ResumeEffects(now + c.frozen, reply)
    else []
  }

  /** evaluateSuspend: re-assess the channel and re-arm its timer. An unknown owner is left alone. */
  function Evaluate(l: Local, ownerActive: bool, now: int, pauseOk: bool, reply: ResumeReply): (Local, seq<Effect>) {
    if l.chan.None? || l.chan.value.ownerID == 0 then (l, [])
    else
      var c := l.chan.value;
      var present := OwnerPresent(c, ownerActive);
      var assessed := Assess(c, present, now);
      (Local(Some(assessed), ClosingTime(assessed, present, now)), EvaluateEffects(c, present, now, pauseOk, reply))
  }

  // ---- connections --------------------------------------------------------------------------

  /** The last-client branch of Unregister: the timer that outlives the mirror, and what it publishes. */
  function LastLeave(c: Chan, timer: Option<int>, now: int, pauseOk: bool): (Option<int>, seq<Effect>) {
    if c.ownerID == 0 || c.suspended || c.unlimited then (timer, [])
    else
      var remaining := Remaining(c.deadline, now);
      var alreadyPaused := c.frozen > 0;
      var awayTimerActive := c.grace.enabled && c.deadline.Some? && c.grace.duration <= remaining;
      if c.grace.enabled && (awayTimerActive || alreadyPaused) then
        var closing := c.absentSince.GetOr(now) + c.grace.duration;
        (Some(closing), if awayTimerActive && !alreadyPaused then PauseEffects(closing, remaining, pauseOk) else [])
      else if c.deadline.Some? then (c.deadline, [])
      else (timer, [])
  }

  /** Unregister; when clients remain, the evaluation it spawns is a step of its own. */
  function Leave(l: Local, conn: ConnID, user: UserID, now: int, pauseOk: bool): (Local, seq<Effect>) {
    if l.chan.None? then (l, [])
    else
      var c := l.chan.value.(clients := l.chan.value.clients - {conn});
      var gone := if HasUser(c.clients, user) then [] else [RemoveActive(user)];
      if c.clients != map[] then (Local(Some(c), l.timer), gone)
      else
        var (timer, effects) := LastLeave(c, l.timer, now, pauseOk);
        (Local(None, timer), gone + effects)
  }

  function FreshChan(client: Client): Chan {
    Chan(client.channelID, client.ownerID, map[], Grace(0, false), client.suspended, client.deadline,
         client.unlimited, None,
         if client.pausedSecs.Some? && client.pausedSecs.value > 0 then client.pausedSecs.value * SECOND else 0)
  }

  /** Drop a mirror that still holds the id of a deleted channel of the same slug. */
  function DropStale(l: Local, channelID: int): (Local, seq<Effect>) {
    if l.chan.Some? && l.chan.value.channelID != channelID then (Local(None, None), [ClearActive]) else (l, [])
  }

  /** Register; the evaluation it spawns is a step of its own. */
  function Join(l: Local, client: Client, serverDefault: int, subscribeOk: bool): (Local, seq<Effect>) {
    var (base, cleared) := DropStale(l, client.channelID);
    if base.chan.None? && !subscribeOk then (base, cleared)
    else
      var c := if base.chan.Some? then base.chan.value else FreshChan(client);
      var joined := c.(clients := c.clients[client.conn := client.user],
                       grace := ResolveGrace(serverDefault, client.graceSeconds));
      (Local(Some(joined), base.timer), cleared + [MarkActive(client.user)])
  }
}
