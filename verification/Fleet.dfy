/**
 Any number of nodes sharing one channel row and one bus. Every database statement, publication,
 delivery, timer and evaluation is a step of its own, so a run is any interleaving of them.
 */
module Fleet {
  import opened Common
  import opened ChannelRow
  import opened NodeState
  import opened HubTheorems

  type NodeID = nat

  /** What stays fixed over a run: the channel, its owner and its grace setting. */
  datatype Setup = Setup(channelID: int, ownerID: UserID, serverDefault: int, graceSeconds: Option<int>)
  {
    function Grace(): Grace {
      ResolveGrace(serverDefault, graceSeconds)
    }
  }

  /** `owed` holds messages a goroutine is about to publish; `history` is every value the row has had. */
  datatype State = State(
    row: Row,
    clock: int,
    nodes: map<NodeID, Local>,
    owed: seq<Message>,
    published: seq<Message>,
    history: seq<Row>)

  function NewFleet(now: int): State {
    State(Created(now), now, map[], [], [], [Created(now)])
  }

  datatype Action =
    | HandlerStart(deadline: Option<int>)     // start, open, or set a duration on a suspended channel
    | HandlerSetDeadline(until: int)       // extend, or set a duration on an open channel
    | HandlerMode(unlimited: bool)
    | HandlerClose
    | TimerFires(node: NodeID)
    | Connects(node: NodeID, conn: ConnID, user: UserID, subscribeOk: bool)
    | Disconnects(node: NodeID, conn: ConnID, user: UserID, dbUp: bool)
    | Receives(node: NodeID, index: nat)
    | Evaluates(node: NodeID, ownerActive: bool, dbUp: bool)
    | Publishes(index: nat)

  datatype Event = Event(action: Action, at: int)

  function NodeAt(f: State, n: NodeID): Local {
    if n in f.nodes then f.nodes[n] else Local(None, None)
  }

  predicate CanHappen(f: State, e: Event) {
    && f.clock <= e.at
    && match e.action
       case Receives(n, index) => index < |f.published| && NodeAt(f, n).chan.Some?
       case Publishes(index) => index < |f.owed|
       case TimerFires(n) => NodeAt(f, n).timer.Some?
       case _ => true
  }

  /** The snapshot a connecting client reads from the row. */
  function Snapshot(setup: Setup, r: Row, conn: ConnID, user: UserID): Client {
    Client(conn, user, setup.channelID, setup.ownerID, setup.graceSeconds,
           r.suspendedAt.Some?, r.deadline, r.unlimited, r.pausedSecs)
  }

  function PauseOk(r: Row, at: int, dbUp: bool): bool {
    dbUp && Execute(r, Pause, at).1 != OutOfRange
  }

  function ReplyOf(r: Row, at: int, dbUp: bool): ResumeReply {
    var reply := Execute(r, Resume, at).1;
    if dbUp && reply.Returned? then ResumedAt(Some(reply.deadline)) else ResumeFailed
  }

  /** The row after the statements a node attempted. */
  function RowAfter(r: Row, es: seq<Effect>, at: int, dbUp: bool): Row {
    if !dbUp then r
    else if PauseRow in es then Next(r, Pause, at)
    else if ResumeRow in es then Next(r, Resume, at)
    else r
  }

  /** The bus messages among a node's effects. */
  function Messages(es: seq<Effect>): seq<Message> {
    if es == [] then []
    else
      (match es[0]
       case PublishPaused(_, secs) => [Paused(secs)]
       case PublishRestarted(at) => [Restarted(at)]
       case PublishSuspended => [Suspended]
       case _ => []) + Messages(es[1..])
  }

  function Commit(f: State, at: int, row: Row, messages: seq<Message>): State {
    f.(row := row, clock := at, owed := f.owed + messages, history := f.history + [row])
  }

  function CommitNode(f: State, at: int, n: NodeID, outcome: (Local, seq<Effect>), dbUp: bool): State {
    Commit(f, at, RowAfter(f.row, outcome.1, at, dbUp), Messages(outcome.1)).(nodes := f.nodes[n := outcome.0])
  }

  /** suspendChannel: only the UPDATE that changed the row owes a publication. */
  function Close(f: State, at: int): State {
    var (row, reply) := Execute(f.row, SuspendIfActive, at);
    Commit(f, at, row, if reply == Affected(0) then [] else [Suspended])
  }

  function Step(setup: Setup, f: State, e: Event): State {
    if !CanHappen(f, e) then f
    else
      match e.action
      case HandlerStart(deadline) =>
        Commit(f, e.at, Next(f.row, StartOperating(deadline), e.at), [Operating(deadline)])
      case HandlerSetDeadline(until) =>
        var (row, reply) := Execute(f.row, SetDeadline(Some(until)), e.at);
        Commit(f, e.at, row, if reply == Affected(0) then [] else [Operating(Some(until))])
      case HandlerMode(unlimited) =>
        Commit(f, e.at, Next(f.row, ChannelRow.SetUnlimited(unlimited), e.at), [Mode(unlimited)])
      case HandlerClose => Close(f, e.at)
      case TimerFires(n) => Close(f.(nodes := f.nodes[n := NodeAt(f, n).(timer := None)]), e.at)
      case Connects(n, conn, user, subscribeOk) =>
        var client := Snapshot(setup, f.row, conn, user);
        CommitNode(f, e.at, n, Join(NodeAt(f, n), client, setup.serverDefault, subscribeOk), true)
      case Disconnects(n, conn, user, dbUp) =>
        CommitNode(f, e.at, n, Leave(NodeAt(f, n), conn, user, e.at, PauseOk(f.row, e.at, dbUp)), dbUp)
      case Receives(n, index) =>
        var l := NodeAt(f, n);
        CommitNode(f, e.at, n, (l.(chan := Some(Receive(l.chan.value, f.published[index]))), []), true)
      case Evaluates(n, ownerActive, dbUp) =>
        var (ok, reply) := (PauseOk(f.row, e.at, dbUp), ReplyOf(f.row, e.at, dbUp));
        CommitNode(f, e.at, n, Evaluate(NodeAt(f, n), ownerActive, e.at, ok, reply), dbUp)
      case Publishes(index) =>
        f.(clock := e.at, owed := f.owed[..index] + f.owed[index + 1..], published := f.published + [f.owed[index]])
  }

  function Run(setup: Setup, f: State, events: seq<Event>): State
    decreases |events|
  {
    if events == [] then f else Run(setup, Step(setup, f, events[0]), events[1..])
  }

  // ---- consistency of the row and of every mirror ----------------------------------------------

  predicate Consistent(setup: Setup, f: State) {
    && RowInv(f.row)
    && forall n :: n in f.nodes ==> LocalInv(f.nodes[n], f.clock, setup.Grace())
  }

  lemma MirrorsKeepInv(setup: Setup, f: State, at: int)
    requires Consistent(setup, f) && f.clock <= at
    ensures forall n :: LocalInv(NodeAt(f, n), at, setup.Grace())
  {
  }

  lemma RowAfterKeepsInv(r: Row, es: seq<Effect>, at: int, dbUp: bool)
    requires RowInv(r)
    ensures RowInv(RowAfter(r, es, at, dbUp))
  {
    ExecuteKeepsRowInv(r, Pause, at);
    ExecuteKeepsRowInv(r, Resume, at);
  }

  lemma NodeStepKeepsConsistent(setup: Setup, f: State, at: int, n: NodeID, outcome: (Local, seq<Effect>), dbUp: bool)
    requires Consistent(setup, f) && f.clock <= at
    requires LocalInv(outcome.0, at, setup.Grace())
    ensures Consistent(setup, CommitNode(f, at, n, outcome, dbUp))
  {
    MirrorsKeepInv(setup, f, at);
    RowAfterKeepsInv(f.row, outcome.1, at, dbUp);
    var after := CommitNode(f, at, n, outcome, dbUp);
    forall m | m in after.nodes ensures LocalInv(after.nodes[m], after.clock, setup.Grace()) {
      assert m != n ==> NodeAt(f, m) == f.nodes[m];
    }
  }

  lemma RowStepKeepsConsistent(setup: Setup, f: State, at: int, s: Statement, messages: seq<Message>)
    requires Consistent(setup, f) && f.clock <= at
    ensures Consistent(setup, Commit(f, at, Next(f.row, s, at), messages))
  {
    MirrorsKeepInv(setup, f, at);
    ExecuteKeepsRowInv(f.row, s, at);
    forall n | n in f.nodes ensures LocalInv(f.nodes[n], at, setup.Grace()) {
      assert NodeAt(f, n) == f.nodes[n];
    }
  }

  lemma StepKeepsConsistent(setup: Setup, f: State, e: Event)
    requires Consistent(setup, f)
    ensures Consistent(setup, Step(setup, f, e))
  {
    if CanHappen(f, e) {
      MirrorsKeepInv(setup, f, e.at);
      var grace := setup.Grace();
      match e.action
      case HandlerStart(deadline) =>
        RowStepKeepsConsistent(setup, f, e.at, StartOperating(deadline), [Operating(deadline)]);
      case HandlerSetDeadline(until) =>
        RowStepKeepsConsistent(setup, f, e.at, SetDeadline(Some(until)), Step(setup, f, e).owed[|f.owed|..]);
      case HandlerMode(unlimited) =>
        RowStepKeepsConsistent(setup, f, e.at, ChannelRow.SetUnlimited(unlimited), [Mode(unlimited)]);
      case HandlerClose => RowStepKeepsConsistent(setup, f, e.at, SuspendIfActive, []);
      case TimerFires(n) =>
        var unarmed := f.(nodes := f.nodes[n := NodeAt(f, n).(timer := None)]);
        assert LocalInv(NodeAt(f, n), f.clock, grace);
        RowStepKeepsConsistent(setup, unarmed, e.at, SuspendIfActive, []);
      case Connects(n, conn, user, subscribeOk) =>
        JoinKeepsInv(NodeAt(f, n), Snapshot(setup, f.row, conn, user), setup.serverDefault, subscribeOk, e.at, grace);
        NodeStepKeepsConsistent(setup, f, e.at, n,
          Join(NodeAt(f, n), Snapshot(setup, f.row, conn, user), setup.serverDefault, subscribeOk), true);
      case Disconnects(n, conn, user, dbUp) =>
        LeaveKeepsInv(NodeAt(f, n), conn, user, e.at, PauseOk(f.row, e.at, dbUp), grace);
        var ok := PauseOk(f.row, e.at, dbUp);
        NodeStepKeepsConsistent(setup, f, e.at, n, Leave(NodeAt(f, n), conn, user, e.at, ok), dbUp);
      case Receives(n, index) =>
        var l := NodeAt(f, n);
        ReceiveKeepsInv(l.chan.value, f.published[index], e.at);
        var received := l.(chan := Some(Receive(l.chan.value, f.published[index])));
        NodeStepKeepsConsistent(setup, f, e.at, n, (received, []), true);
      case Evaluates(n, ownerActive, dbUp) =>
        var (ok, reply) := (PauseOk(f.row, e.at, dbUp), ReplyOf(f.row, e.at, dbUp));
        EvaluateKeepsInv(NodeAt(f, n), ownerActive, e.at, ok, reply, grace);
        NodeStepKeepsConsistent(setup, f, e.at, n, Evaluate(NodeAt(f, n), ownerActive, e.at, ok, reply), dbUp);
      case Publishes(index) =>
        forall n | n in f.nodes ensures LocalInv(f.nodes[n], e.at, grace) {
          assert NodeAt(f, n) == f.nodes[n];
        }
    }
  }

  /** In every run of any number of nodes, the row and every mirror stay consistent. */
  lemma {:induction false} FleetStaysConsistent(setup: Setup, f: State, events: seq<Event>)
    requires Consistent(setup, f)
    ensures Consistent(setup, Run(setup, f, events))
    decreases |events|
  {
    if events != [] {
      StepKeepsConsistent(setup, f, events[0]);
      FleetStaysConsistent(setup, Step(setup, f, events[0]), events[1..]);
    }
  }

  /** What evaluateSuspend would leave armed for a channel with nothing booked and nothing frozen. */
  function GraceOnly(c: Chan, at: int): Option<int> {
    if c.grace.enabled then Some(c.absentSince.GetOr(at) + c.grace.duration) else None
  }

  /**
   In every reachable fleet, on every node, exactly when the last-client branch does what evaluateSuspend would
   do at the instant the last client leaves an open, limited channel: time is booked, or paused with auto-close
   on, or the timer that is armed already happens to be the one for the grace alone.
   */
  lemma LastLeaveMatchesEvaluateEverywhere(
    setup: Setup, now: int, events: seq<Event>, n: NodeID, at: int, pauseOk: bool)
    requires var f := Run(setup, NewFleet(now), events);
             && n in f.nodes && f.nodes[n].chan.Some? && f.clock <= at
             && Abandoned(f.nodes[n].chan.value.(clients := map[]))
    ensures var l := Run(setup, NewFleet(now), events).nodes[n];
            var c := l.chan.value.(clients := map[]);
            LeaveAgrees(c, l.timer, at, pauseOk) <==>
              c.deadline.Some? || (c.grace.enabled && c.frozen > 0) || l.timer == GraceOnly(c, at)
  {
    FleetStaysConsistent(setup, NewFleet(now), events);
    var l := Run(setup, NewFleet(now), events).nodes[n];
    LeaveAgreesIff(l.chan.value.(clients := map[]), l.timer, at, pauseOk);
  }

  const OWNER: UserID := 7

  function OneMinuteGrace(): Setup {
    Setup(1, OWNER, 0, Some(60))
  }

  /** Opened without an end while unlimited, then limited again: the owner is there, and nothing is booked. */
  function OpenedWithoutEnd(): seq<Event> {
    [Event(HandlerMode(true), 0), Event(HandlerStart(None), 0), Event(HandlerMode(false), 0),
     Event(Connects(0, 1, OWNER, true), 0), Event(Evaluates(0, true, true), 0)]
  }

  function OpenMirror(clients: map<ConnID, UserID>, deadline: Option<int>): Chan {
    Chan(1, OWNER, clients, Grace(60 * SECOND, true), false, deadline, false, None, 0)
  }

  lemma RunSplits(setup: Setup, f: State, e: Event, events: seq<Event>)
    ensures Run(setup, f, [e] + events) == Run(setup, Step(setup, f, e), events)
  {
    assert ([e] + events)[1..] == events;
  }

  lemma FiveNested<T>(es: seq<T>)
    requires |es| == 5
    ensures es == [es[0]] + ([es[1]] + ([es[2]] + ([es[3]] + ([es[4]] + []))))
  {
  }

  lemma OpenedRow(setup: Setup)
    ensures var f1 := Step(setup, NewFleet(0), Event(HandlerMode(true), 0));
            var f2 := Step(setup, f1, Event(HandlerStart(None), 0));
            var f3 := Step(setup, f2, Event(HandlerMode(false), 0));
            f3.row == Row(None, None, None, false) && f3.nodes == map[] && f3.clock == 0
  {
  }

  lemma OwnerConnects(f: State)
    requires f.row == Row(None, None, None, false) && f.nodes == map[] && f.clock == 0
    ensures var g := Step(OneMinuteGrace(), f, Event(Connects(0, 1, OWNER, true), 0));
            g.nodes == map[0 := Local(Some(OpenMirror(map[1 := OWNER], None)), None)] && g.clock == 0
  {
  }

  lemma OwnerIsSeen(f: State)
    requires f.nodes == map[0 := Local(Some(OpenMirror(map[1 := OWNER], None)), None)] && f.clock == 0
    ensures var g := Step(OneMinuteGrace(), f, Event(Evaluates(0, true, true), 0));
            g.nodes == map[0 := Local(Some(OpenMirror(map[1 := OWNER], None)), None)]
  {
  }

  lemma OpenedWithoutEndRun()
    ensures Run(OneMinuteGrace(), NewFleet(0), OpenedWithoutEnd()).nodes
         == map[0 := Local(Some(OpenMirror(map[1 := OWNER], None)), None)]
  {
    var (setup, es) := (OneMinuteGrace(), OpenedWithoutEnd());
    var f1 := Step(setup, NewFleet(0), es[0]);
    var f2 := Step(setup, f1, es[1]);
    var f3 := Step(setup, f2, es[2]);
    var f4 := Step(setup, f3, es[3]);
    OpenedRow(setup);
    OwnerConnects(f3);
    OwnerIsSeen(f4);
    FiveNested(es);
    RunSplits(setup, NewFleet(0), es[0], [es[1]] + ([es[2]] + ([es[3]] + ([es[4]] + []))));
    RunSplits(setup, f1, es[1], [es[2]] + ([es[3]] + ([es[4]] + [])));
    RunSplits(setup, f2, es[2], [es[3]] + ([es[4]] + []));
    RunSplits(setup, f3, es[3], [es[4]] + []);
    RunSplits(setup, f4, es[4], []);
  }

  /** The owner is the only client, no time is booked, nothing is frozen and no timer armed. */
  function OwnerAlone(): Local {
    Local(Some(OpenMirror(map[1 := OWNER], None)), None)
  }

  lemma OwnerAloneDisagrees(at: int, pauseOk: bool)
    ensures Leave(OwnerAlone(), 1, OWNER, at, pauseOk).0 == Local(None, None)
    ensures var abandoned := OpenMirror(map[], None);
            var evaluated := Evaluate(Local(Some(abandoned), None), false, at, pauseOk, ResumeFailed).0;
            evaluated.timer == Some(at + 60 * SECOND) && !LeaveAgrees(abandoned, None, at, pauseOk)
  {
    assert OwnerAlone().chan.value.clients - {1} == map[];
    LeaveAgreesIff(OpenMirror(map[], None), None, at, pauseOk);
  }

  /**
   A run in which they disagree although the grace never changed: when the owner of that channel leaves last,
   no timer is left, where evaluateSuspend would have armed the grace, so the channel stays open.
   */
  lemma NothingBookedStaysOpen(at: int, pauseOk: bool)
    ensures Run(OneMinuteGrace(), NewFleet(0), OpenedWithoutEnd()).nodes == map[0 := OwnerAlone()]
    ensures Leave(OwnerAlone(), 1, OWNER, at, pauseOk).0 == Local(None, None)
    ensures var abandoned := OpenMirror(map[], None);
            var evaluated := Evaluate(Local(Some(abandoned), None), false, at, pauseOk, ResumeFailed).0;
            evaluated.timer == Some(at + 60 * SECOND) && !LeaveAgrees(abandoned, None, at, pauseOk)
  {
    OpenedWithoutEndRun();
    OwnerAloneDisagrees(at, pauseOk);
  }

  // ---- publications against row transitions ----------------------------------------------------

  function Count(ms: seq<Message>, p: Message -> bool): nat {
    if ms == [] then 0 else (if p(ms[0]) then 1 else 0) + Count(ms[1..], p)
  }

  lemma {:induction false} CountAppend(a: seq<Message>, b: seq<Message>, p: Message -> bool)
    ensures Count(a + b, p) == Count(a, p) + Count(b, p)
  {
    if a == [] {
      assert a + b == b;
    } else {
      assert (a + b)[1..] == a[1..] + b;
      CountAppend(a[1..], b, p);
    }
  }

  /** Times the row went from open to suspended. */
  function Closings(history: seq<Row>): nat {
    if |history| < 2 then 0
    else
      var k := |history| - 1;
      Closings(history[..k]) + if history[k - 1].suspendedAt.None? && history[k].suspendedAt.Some? then 1 else 0
  }

  /** Times the row went from running to paused. */
  function Freezings(history: seq<Row>): nat {
    if |history| < 2 then 0
    else
      var k := |history| - 1;
      Freezings(history[..k]) + if history[k - 1].pausedSecs.None? && history[k].pausedSecs.Some? then 1 else 0
  }

  function IsClosing(): Message -> bool {
    (m: Message) => m.Suspended?
  }

  function IsRestart(): Message -> bool {
    (m: Message) => m.Restarted?
  }

  function IsPause(): Message -> bool {
    (m: Message) => m.Paused?
  }

  /** Notices published or about to be published. */
  function Attempts(f: State, p: Message -> bool): nat {
    Count(f.owed, p) + Count(f.published, p)
  }

  /** A pause still frozen in the row can be resumed once more. */
  function Resumable(r: Row): nat {
    if r.pausedSecs.Some? then 1 else 0
  }

  function Num(b: bool): nat {
    if b then 1 else 0
  }

  /** What the step makes its node attempt; steps without a node attempt nothing here. */
  function NodeEffects(setup: Setup, f: State, e: Event): seq<Effect> {
    match e.action
    case Connects(n, conn, user, subscribeOk) =>
      Join(NodeAt(f, n), Snapshot(setup, f.row, conn, user), setup.serverDefault, subscribeOk).1
    case Disconnects(n, conn, user, dbUp) => Leave(NodeAt(f, n), conn, user, e.at, PauseOk(f.row, e.at, dbUp)).1
    case Evaluates(n, ownerActive, dbUp) =>
      Evaluate(NodeAt(f, n), ownerActive, e.at, PauseOk(f.row, e.at, dbUp), ReplyOf(f.row, e.at, dbUp)).1
    case _ => []
  }

  predicate DbAnswers(a: Action) {
    match a
    case Disconnects(_, _, _, dbUp) => dbUp
    case Evaluates(_, _, dbUp) => dbUp
    case _ => true
  }

  /** The step's ResumeChannelOperating changes the row. */
  predicate Thaws(setup: Setup, f: State, e: Event) {
    CanHappen(f, e) && DbAnswers(e.action) && ResumeRow in NodeEffects(setup, f, e) && ResumeMatches(f.row)
  }

  /** The step's PauseChannelOperating changes no row: paused, closed or switched to unlimited in the meantime. */
  predicate PausesTooLate(setup: Setup, f: State, e: Event) {
    CanHappen(f, e) && DbAnswers(e.action) && PauseRow in NodeEffects(setup, f, e) && !PauseMatches(f.row)
  }

  function Thawings(setup: Setup, f: State, events: seq<Event>): nat
    decreases |events|
  {
    if events == [] then 0
    else Num(Thaws(setup, f, events[0])) + Thawings(setup, Step(setup, f, events[0]), events[1..])
  }

  function LatePauses(setup: Setup, f: State, events: seq<Event>): nat
    decreases |events|
  {
    if events == [] then 0
    else Num(PausesTooLate(setup, f, events[0])) + LatePauses(setup, Step(setup, f, events[0]), events[1..])
  }

  predicate Anchored(f: State) {
    f.history != [] && f.history[|f.history| - 1] == f.row
  }

  /**
   Between two moments of a run: as many closing notices as closings, as many resume notices as effective
   resumes, of which each pause allows one, and as many pause notices as freezes and late pauses.
   */
  predicate Tallied(f: State, g: State, thawings: nat, latePauses: nat) {
    && Attempts(g, IsClosing()) + Closings(f.history) == Attempts(f, IsClosing()) + Closings(g.history)
    && Attempts(g, IsRestart()) == Attempts(f, IsRestart()) + thawings
    && thawings + Resumable(g.row) + Freezings(f.history) <= Resumable(f.row) + Freezings(g.history)
    && Attempts(g, IsPause()) + Freezings(f.history) == Attempts(f, IsPause()) + Freezings(g.history) + latePauses
  }

  /** The messages of a commit match what it did to the row. */
  predicate Balanced(r: Row, r': Row, messages: seq<Message>, thaws: bool, late: bool) {
    && Count(messages, IsClosing()) == Num(r.suspendedAt.None? && r'.suspendedAt.Some?)
    && Count(messages, IsRestart()) == Num(thaws)
    && Num(thaws) + Resumable(r') <= Resumable(r) + Num(r.pausedSecs.None? && r'.pausedSecs.Some?)
    && Count(messages, IsPause()) == Num(r.pausedSecs.None? && r'.pausedSecs.Some?) + Num(late)
  }

  lemma CommitTallies(f: State, at: int, row: Row, messages: seq<Message>, thaws: bool, late: bool)
    requires Anchored(f) && Balanced(f.row, row, messages, thaws, late)
    ensures Anchored(Commit(f, at, row, messages)) && Tallied(f, Commit(f, at, row, messages), Num(thaws), Num(late))
  {
    CountAppend(f.owed, messages, IsClosing());
    CountAppend(f.owed, messages, IsRestart());
    CountAppend(f.owed, messages, IsPause());
    var history := f.history + [row];
    assert history[..|history| - 1] == f.history;
  }

  lemma MessagesOfOne(e: Effect)
    ensures Messages([e]) == match e
                             case PublishPaused(_, secs) => [Paused(secs)]
                             case PublishRestarted(at) => [Restarted(at)]
                             case PublishSuspended => [Suspended]
                             case _ => []
  {
    assert [e][1..] == [];
  }

  lemma {:induction false} MessagesAppend(a: seq<Effect>, b: seq<Effect>)
    ensures Messages(a + b) == Messages(a) + Messages(b)
  {
    if a == [] {
      assert a + b == b;
    } else {
      assert (a + b)[1..] == a[1..] + b;
      MessagesAppend(a[1..], b);
    }
  }

  lemma PauseMessages(closing: int, remaining: int, pauseOk: bool)
    ensures Messages(PauseEffects(closing, remaining, pauseOk)) ==
            if pauseOk then [Paused(WholeSeconds(remaining))] else []
  {
    MessagesAppend([PauseRow], if pauseOk then [PublishPaused(closing, WholeSeconds(remaining))] else []);
    MessagesOfOne(PauseRow);
    MessagesOfOne(PublishPaused(closing, WholeSeconds(remaining)));
  }

  lemma ResumeMessages(resumeAt: int, reply: ResumeReply)
    ensures Messages(ResumeEffects(resumeAt, reply)) ==
            if reply.ResumedAt? then [Restarted(reply.deadline.GetOr(resumeAt))] else []
  {
    MessagesOfOne(ResumeRow);
    if reply.ResumedAt? {
      MessagesAppend([ResumeRow], [PublishRestarted(reply.deadline.GetOr(resumeAt))]);
      MessagesOfOne(PublishRestarted(reply.deadline.GetOr(resumeAt)));
    }
  }

  /** A node announces at most one thing, and only what it attempted on the row. */
  predicate Announces(es: seq<Effect>, pauseOk: bool, resumed: bool) {
    if PauseRow in es then
      ResumeRow !in es && (if pauseOk then |Messages(es)| == 1 && Messages(es)[0].Paused? else Messages(es) == [])
    else if ResumeRow in es && resumed then |Messages(es)| == 1 && Messages(es)[0].Restarted?
    else Messages(es) == []
  }

  /**
   A resume is announced exactly by the node whose UPDATE thawed the row. A pause is announced whenever the
   statement succeeded, even if it changed no row; that is when the notice is one too many.
   */
  lemma NodeBalanced(r: Row, es: seq<Effect>, at: int, dbUp: bool)
    requires RowInv(r) && Announces(es, PauseOk(r, at, dbUp), ReplyOf(r, at, dbUp).ResumedAt?)
    ensures Balanced(r, RowAfter(r, es, at, dbUp), Messages(es),
                     dbUp && ResumeRow in es && ResumeMatches(r), dbUp && PauseRow in es && !PauseMatches(r))
  {
    var ms := Messages(es);
    assert |ms| == 1 ==> ms == [ms[0]] && ms[1..] == [];
  }

  /** A pause that comes too late leaves the row as it is and is announced all the same. */
  lemma LatePauseStillAnnounced(r: Row, at: int, closing: int, remaining: int)
    requires !PauseMatches(r)
    ensures var es := PauseEffects(closing, remaining, PauseOk(r, at, true));
            RowAfter(r, es, at, true) == r && Messages(es) == [Paused(WholeSeconds(remaining))]
  {
    PauseMessages(closing, remaining, true);
  }

  lemma PauseAnnounces(closing: int, remaining: int, pauseOk: bool, resumed: bool)
    ensures Announces(PauseEffects(closing, remaining, pauseOk), pauseOk, resumed)
  {
    PauseMessages(closing, remaining, pauseOk);
    assert PauseEffects(closing, remaining, pauseOk)[0] == PauseRow;
  }

  lemma ResumeAnnounces(resumeAt: int, reply: ResumeReply, pauseOk: bool)
    ensures Announces(ResumeEffects(resumeAt, reply), pauseOk, reply.ResumedAt?)
  {
    ResumeMessages(resumeAt, reply);
    assert ResumeEffects(resumeAt, reply)[0] == ResumeRow;
  }

  lemma EvaluateAnnounces(l: Local, ownerActive: bool, at: int, ok: bool, reply: ResumeReply)
    ensures Announces(Evaluate(l, ownerActive, at, ok, reply).1, ok, reply.ResumedAt?)
  {
    if l.chan.Some? && l.chan.value.ownerID != 0 {
      EffectsAnnounce(l.chan.value, OwnerPresent(l.chan.value, ownerActive), at, ok, reply);
    }
  }

  lemma EffectsAnnounce(c: Chan, present: bool, at: int, ok: bool, reply: ResumeReply)
    ensures Announces(EvaluateEffects(c, present, at, ok, reply), ok, reply.ResumedAt?)
  {
    if !present && Freezes(c, at) {
      PauseAnnounces(c.absentSince.GetOr(at) + c.grace.duration, Remaining(c.deadline, at), ok, reply.ResumedAt?);
    } else if present && c.frozen > 0 {
      ResumeAnnounces(at + c.frozen, reply, ok);
    }
  }

  lemma LeaveAnnounces(l: Local, conn: ConnID, user: UserID, at: int, ok: bool, resumed: bool)
    ensures var es := Leave(l, conn, user, at, ok).1;
            Announces(es, ok, resumed) && ResumeRow !in es
  {
    if l.chan.Some? {
      var c := l.chan.value.(clients := l.chan.value.clients - {conn});
      var gone := if HasUser(c.clients, user) then [] else [RemoveActive(user)];
      MessagesOfOne(RemoveActive(user));
      if c.clients == map[] {
        MessagesAppend(gone, LastLeave(c, l.timer, at, ok).1);
        PauseMessages(c.absentSince.GetOr(at) + c.grace.duration, Remaining(c.deadline, at), ok);
      }
    }
  }

  lemma JoinAnnounces(l: Local, client: Client, serverDefault: int, subscribeOk: bool)
    ensures var es := Join(l, client, serverDefault, subscribeOk).1;
            Messages(es) == [] && ResumeRow !in es && PauseRow !in es
  {
    MessagesOfOne(ClearActive);
    MessagesOfOne(MarkActive(client.user));
    MessagesAppend(DropStale(l, client.channelID).1, [MarkActive(client.user)]);
  }

  lemma CloseTallies(f: State, at: int)
    requires Anchored(f)
    ensures Anchored(Close(f, at)) && Tallied(f, Close(f, at), 0, 0)
  {
    var messages := if f.row.suspendedAt.Some? then [] else [Suspended];
    CommitTallies(f, at, Next(f.row, SuspendIfActive, at), messages, false, false);
  }

  lemma HandlerTallies(setup: Setup, f: State, e: Event)
    requires Anchored(f) && CanHappen(f, e)
    requires e.action.HandlerStart? || e.action.HandlerSetDeadline? || e.action.HandlerMode?
    ensures Anchored(Step(setup, f, e)) && Tallied(f, Step(setup, f, e), 0, 0)
  {
    match e.action
    case HandlerStart(deadline) =>
      CommitTallies(f, e.at, Next(f.row, StartOperating(deadline), e.at), [Operating(deadline)], false, false);
    case HandlerSetDeadline(until) =>
      var (row, reply) := Execute(f.row, SetDeadline(Some(until)), e.at);
      CommitTallies(f, e.at, row, if reply == Affected(0) then [] else [Operating(Some(until))], false, false);
    case HandlerMode(unlimited) =>
      CommitTallies(f, e.at, Next(f.row, ChannelRow.SetUnlimited(unlimited), e.at), [Mode(unlimited)], false, false);
  }

  lemma PublishTallies(f: State, at: int, index: nat)
    requires Anchored(f) && index < |f.owed|
    ensures var g := f.(clock := at, owed := f.owed[..index] + f.owed[index + 1..],
                        published := f.published + [f.owed[index]]);
            Anchored(g) && Tallied(f, g, 0, 0)
  {
    var (before, m, after) := (f.owed[..index], f.owed[index], f.owed[index + 1..]);
    assert f.owed == before + ([m] + after);
    forall p: Message -> bool
      ensures Count(f.owed, p) + Count(f.published, p) == Count(before + after, p) + Count(f.published + [m], p)
    {
      CountAppend(before, [m] + after, p);
      CountAppend([m], after, p);
      CountAppend(before, after, p);
      CountAppend(f.published, [m], p);
    }
  }

  /** One step of a node. */
  lemma NodeTallies(f: State, at: int, n: NodeID, outcome: (Local, seq<Effect>), dbUp: bool)
    requires Anchored(f) && RowInv(f.row)
    requires Announces(outcome.1, PauseOk(f.row, at, dbUp), ReplyOf(f.row, at, dbUp).ResumedAt?)
    ensures var g := CommitNode(f, at, n, outcome, dbUp);
            Anchored(g) && Tallied(f, g, Num(dbUp && ResumeRow in outcome.1 && ResumeMatches(f.row)),
                                   Num(dbUp && PauseRow in outcome.1 && !PauseMatches(f.row)))
  {
    var es := outcome.1;
    NodeBalanced(f.row, es, at, dbUp);
    CommitTallies(f, at, RowAfter(f.row, es, at, dbUp), Messages(es),
                  dbUp && ResumeRow in es && ResumeMatches(f.row), dbUp && PauseRow in es && !PauseMatches(f.row));
  }

  predicate StepTallied(setup: Setup, f: State, e: Event) {
    var g := Step(setup, f, e);
    Anchored(g) && Tallied(f, g, Num(Thaws(setup, f, e)), Num(PausesTooLate(setup, f, e)))
  }

  lemma ConnectTallies(setup: Setup, f: State, e: Event)
    requires Anchored(f) && RowInv(f.row) && CanHappen(f, e) && e.action.Connects?
    ensures StepTallied(setup, f, e)
  {
    var Connects(n, conn, user, subscribeOk) := e.action;
    var client := Snapshot(setup, f.row, conn, user);
    JoinAnnounces(NodeAt(f, n), client, setup.serverDefault, subscribeOk);
    NodeTallies(f, e.at, n, Join(NodeAt(f, n), client, setup.serverDefault, subscribeOk), true);
  }

  lemma DisconnectTallies(setup: Setup, f: State, e: Event)
    requires Anchored(f) && RowInv(f.row) && CanHappen(f, e) && e.action.Disconnects?
    ensures StepTallied(setup, f, e)
  {
    var Disconnects(n, conn, user, dbUp) := e.action;
    var ok := PauseOk(f.row, e.at, dbUp);
    LeaveAnnounces(NodeAt(f, n), conn, user, e.at, ok, ReplyOf(f.row, e.at, dbUp).ResumedAt?);
    NodeTallies(f, e.at, n, Leave(NodeAt(f, n), conn, user, e.at, ok), dbUp);
  }

  lemma ReceiveTallies(setup: Setup, f: State, e: Event)
    requires Anchored(f) && RowInv(f.row) && CanHappen(f, e) && e.action.Receives?
    ensures StepTallied(setup, f, e)
  {
    var Receives(n, index) := e.action;
    var l := NodeAt(f, n);
    NodeTallies(f, e.at, n, (l.(chan := Some(Receive(l.chan.value, f.published[index]))), []), true);
  }

  lemma EvaluateTallies(setup: Setup, f: State, e: Event)
    requires Anchored(f) && RowInv(f.row) && CanHappen(f, e) && e.action.Evaluates?
    ensures StepTallied(setup, f, e)
  {
    var Evaluates(n, ownerActive, dbUp) := e.action;
    var (ok, reply) := (PauseOk(f.row, e.at, dbUp), ReplyOf(f.row, e.at, dbUp));
    EvaluateAnnounces(NodeAt(f, n), ownerActive, e.at, ok, reply);
    NodeTallies(f, e.at, n, Evaluate(NodeAt(f, n), ownerActive, e.at, ok, reply), dbUp);
  }

  lemma ClosingTallies(setup: Setup, f: State, e: Event)
    requires Anchored(f) && CanHappen(f, e) && (e.action.HandlerClose? || e.action.TimerFires?)
    ensures StepTallied(setup, f, e)
  {
    match e.action
    case HandlerClose => CloseTallies(f, e.at);
    case TimerFires(n) => CloseTallies(f.(nodes := f.nodes[n := NodeAt(f, n).(timer := None)]), e.at);
  }

  lemma PublicationTallies(setup: Setup, f: State, e: Event)
    requires Anchored(f) && CanHappen(f, e) && e.action.Publishes?
    ensures StepTallied(setup, f, e)
  {
    PublishTallies(f, e.at, e.action.index);
  }

  lemma RequestTallies(setup: Setup, f: State, e: Event)
    requires Anchored(f) && CanHappen(f, e)
    requires e.action.HandlerStart? || e.action.HandlerSetDeadline? || e.action.HandlerMode?
    ensures StepTallied(setup, f, e)
  {
    HandlerTallies(setup, f, e);
  }

  lemma IdleTallies(setup: Setup, f: State, e: Event)
    requires Anchored(f) && !CanHappen(f, e)
    ensures StepTallied(setup, f, e)
  {
  }

  /** Every step keeps notices and transitions of the row in balance. */
  lemma StepTallies(setup: Setup, f: State, e: Event)
    requires Anchored(f) && RowInv(f.row)
    ensures StepTallied(setup, f, e)
  {
    if !CanHappen(f, e) {
      IdleTallies(setup, f, e);
    } else {
      match e.action
      case HandlerClose => ClosingTallies(setup, f, e);
      case TimerFires(_) => ClosingTallies(setup, f, e);
      case Publishes(_) => PublicationTallies(setup, f, e);
      case HandlerStart(_) => RequestTallies(setup, f, e);
      case HandlerSetDeadline(_) => RequestTallies(setup, f, e);
      case HandlerMode(_) => RequestTallies(setup, f, e);
      case Connects(_, _, _, _) => ConnectTallies(setup, f, e);
      case Disconnects(_, _, _, _) => DisconnectTallies(setup, f, e);
      case Receives(_, _) => ReceiveTallies(setup, f, e);
      case Evaluates(_, _, _) => EvaluateTallies(setup, f, e);
    }
  }

  lemma {:induction false} RunTallies(setup: Setup, f: State, events: seq<Event>)
    requires Anchored(f) && Consistent(setup, f)
    ensures var g := Run(setup, f, events);
            Anchored(g) && Tallied(f, g, Thawings(setup, f, events), LatePauses(setup, f, events))
    decreases |events|
  {
    if events != [] {
      StepTallies(setup, f, events[0]);
      StepKeepsConsistent(setup, f, events[0]);
      RunTallies(setup, Step(setup, f, events[0]), events[1..]);
    }
  }

  /**
   Over any interleaving of timers, manual closes and evaluations on all nodes: closing notices are exactly
   the row's open-to-suspended transitions, resume notices exactly the effective resumes, and pause notices
   the freezes plus the pauses that came too late to change the row.
   */
  lemma EveryTransitionAnnouncedOnce(setup: Setup, now: int, events: seq<Event>)
    ensures var f := Run(setup, NewFleet(now), events);
            && Attempts(f, IsClosing()) == Closings(f.history)
            && Attempts(f, IsRestart()) == Thawings(setup, NewFleet(now), events)
            && Attempts(f, IsPause()) == Freezings(f.history) + LatePauses(setup, NewFleet(now), events)
            && (f.owed == [] ==> Count(f.published, IsClosing()) == Closings(f.history))
  {
    RunTallies(setup, NewFleet(now), events);
  }

  /**
   Each pause is announced as resumed at most once: after any moment f of a run the resume notices exceed
   the new pauses only by the one pause that f may still hold, so that until the row is paused again at most
   one follows, and none at all if the row was not paused at f.
   */
  lemma EachPauseResumedAtMostOnce(setup: Setup, now: int, before: seq<Event>, after: seq<Event>)
    ensures var f := Run(setup, NewFleet(now), before);
            var g := Run(setup, f, after);
            && Attempts(g, IsRestart()) + Resumable(g.row) + Freezings(f.history)
                 <= Attempts(f, IsRestart()) + Resumable(f.row) + Freezings(g.history)
            && (Freezings(g.history) == Freezings(f.history) ==>
                  Attempts(g, IsRestart()) <= Attempts(f, IsRestart()) + Resumable(f.row))
  {
    FleetStaysConsistent(setup, NewFleet(now), before);
    RunTallies(setup, NewFleet(now), before);
    RunTallies(setup, Run(setup, NewFleet(now), before), after);
  }

  /** Two nodes with one visitor each; both notice the owner's absence before either hears of the other's pause. */
  function BothNotice(): seq<Event> {
    [Event(HandlerStart(Some(HOUR)), 0), Event(Connects(0, 1, 2, true), 0), Event(Connects(1, 2, 3, true), 0),
     Event(Evaluates(0, false, true), 0), Event(Evaluates(1, false, true), 0)]
  }

  function Running(): Row {
    Row(None, Some(HOUR), None, false)
  }

  lemma StartsRunning()
    ensures var (setup, e) := (OneMinuteGrace(), BothNotice()[0]);
            var f := Step(setup, NewFleet(0), e);
            f.row == Running() && f.clock == 0 && f.nodes == map[] && !PausesTooLate(setup, NewFleet(0), e)
  {
  }

  lemma VisitorConnects(f: State, n: NodeID, conn: ConnID, user: UserID)
    requires f.row == Running() && f.clock == 0 && n !in f.nodes
    ensures var (setup, e) := (OneMinuteGrace(), Event(Connects(n, conn, user, true), 0));
            var g := Step(setup, f, e);
            && g.row == Running() && g.clock == 0 && !PausesTooLate(setup, f, e)
            && g.nodes == f.nodes[n := Local(Some(OpenMirror(map[conn := user], Some(HOUR))), None)]
  {
    JoinAnnounces(NodeAt(f, n), Snapshot(OneMinuteGrace(), f.row, conn, user), 0, true);
  }

  /** A node whose mirror still runs attempts the pause, whether or not the row still runs. */
  lemma VisitorsNodeFreezes(f: State, n: NodeID, conn: ConnID, user: UserID)
    requires n in f.nodes && f.nodes[n] == Local(Some(OpenMirror(map[conn := user], Some(HOUR))), None)
    requires user != OWNER && f.clock == 0
    ensures var (setup, e) := (OneMinuteGrace(), Event(Evaluates(n, false, true), 0));
            var g := Step(setup, f, e);
            && (PausesTooLate(setup, f, e) <==> !PauseMatches(f.row))
            && (f.row == Running() ==> g.row == Row(None, None, Some(3600), false))
            && g.clock == 0
            && forall other :: other in f.nodes && other != n ==> other in g.nodes && g.nodes[other] == f.nodes[other]
  {
    var c := f.nodes[n].chan.value;
    assert Freezes(c, 0) && !OwnerPresent(c, false);
    assert EvaluateEffects(c, false, 0, PauseOk(f.row, 0, true), ReplyOf(f.row, 0, true))[0] == PauseRow;
    assert CeilSeconds(HOUR) == 3600;
  }

  lemma LateSplits(setup: Setup, f: State, e: Event, events: seq<Event>)
    ensures LatePauses(setup, f, [e] + events)
         == Num(PausesTooLate(setup, f, e)) + LatePauses(setup, Step(setup, f, e), events)
  {
    assert ([e] + events)[1..] == events;
  }

  /** A run with one pause too many announced: the second node freezes a row that the first has frozen already. */
  lemma SecondPauseComesTooLate()
    ensures LatePauses(OneMinuteGrace(), NewFleet(0), BothNotice()) == 1
  {
    var (setup, es) := (OneMinuteGrace(), BothNotice());
    var f1 := Step(setup, NewFleet(0), es[0]);
    var f2 := Step(setup, f1, es[1]);
    var f3 := Step(setup, f2, es[2]);
    var f4 := Step(setup, f3, es[3]);
    StartsRunning();
    VisitorConnects(f1, 0, 1, 2);
    VisitorConnects(f2, 1, 2, 3);
    VisitorsNodeFreezes(f3, 0, 1, 2);
    VisitorsNodeFreezes(f4, 1, 2, 3);
    LateOfFive(setup, f1, f2, f3, f4, es);
  }

  lemma LateOfFive(setup: Setup, f1: State, f2: State, f3: State, f4: State, es: seq<Event>)
    requires |es| == 5 && f1 == Step(setup, NewFleet(0), es[0]) && f2 == Step(setup, f1, es[1])
    requires f3 == Step(setup, f2, es[2]) && f4 == Step(setup, f3, es[3])
    requires !PausesTooLate(setup, NewFleet(0), es[0]) && !PausesTooLate(setup, f1, es[1])
    requires !PausesTooLate(setup, f2, es[2]) && !PausesTooLate(setup, f3, es[3]) && PausesTooLate(setup, f4, es[4])
    ensures LatePauses(setup, NewFleet(0), es) == 1
  {
    FiveNested(es);
    LateOfTwo(setup, f3, f4, es[3], es[4]);
    LateSplits(setup, f2, es[2], [es[3]] + ([es[4]] + []));
    LateSplits(setup, f1, es[1], [es[2]] + ([es[3]] + ([es[4]] + [])));
    LateSplits(setup, NewFleet(0), es[0], [es[1]] + ([es[2]] + ([es[3]] + ([es[4]] + []))));
  }

  lemma LateOfTwo(setup: Setup, f: State, g: State, e: Event, last: Event)
    requires g == Step(setup, f, e) && !PausesTooLate(setup, f, e) && PausesTooLate(setup, g, last)
    ensures LatePauses(setup, f, [e] + ([last] + [])) == 1
  {
    LateSplits(setup, g, last, []);
    LateSplits(setup, f, e, [last] + []);
  }
}
