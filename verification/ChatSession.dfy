/**
 A whole visit to a channel page together with what it depends on: the table that others write to, the socket
 that carries new messages only while it is up, and the catch-up in flight with the pages it has read.
 */
module ChatSession {
  import opened Common
  import opened Sorting
  import opened ChatLog
  import opened MergeMessages
  import opened ChatClient

  /** A catch-up in flight; `done` once it has read a page that was not full, its last. */
  datatype Flight = Flight(start: int, cursor: int, incoming: seq<Message>, done: bool)

  /**
   `top` is the largest id ever written. The last three fields are history: the rows that the page has never
   had or has lost again, the rows written since the flight's last page was read, and how many messages have
   arrived on the socket since then.
   */
  datatype Session = Session(
    view: View,
    up: bool,
    rows: seq<Message>,
    top: int,
    flight: Option<Flight>,
    missed: set<int>,
    since: set<int>,
    arrived: nat)

  datatype Event =
    | Written(message: Message)
    | Erased(id: int)
    | Wiped
    | Told(message: Message)   // anything else the server sends into the list
    | Lost
    | Reopened
    | Hidden
    | Forced                   // focus, online, visible again, or a retry
    | PageRead
    | Finished
    | Failed

  const INITIAL_ROWS: nat := 50

  /** The list is loaded before the socket is first opened. */
  function Loaded(rows: seq<Message>, top: int): Session {
    var list := Newest(rows, INITIAL_ROWS);
    Session(View(list, Latest(list), Latest(list), false, None), false, rows, top, None, {}, {}, 0)
  }

  function Begin(s: Session, force: bool): Session {
    var v := StartFetch(s.view, force);
    if s.view.fetching.None? && v.fetching.Some? then
      s.(view := v, flight := Some(Flight(v.fetching.value, v.fetching.value, [], false)), since := {}, arrived := 0)
    else s
  }

  /** One turn of the paging loop on the table as it is now. */
  function ReadPage(f: Flight, rows: seq<Message>): Flight {
    var page := ListAfter(rows, f.cursor, PAGE_SIZE);
    f.(incoming := f.incoming + page,
       cursor := if page == [] then f.cursor else Key()(page[|page| - 1]),
       done := |page| < PAGE_SIZE)
  }

  /** A message written while the socket is up is received at once; otherwise it is missed. */
  function Write(s: Session, m: Message): Session {
    var written := s.(rows := s.rows + [m], top := Key()(m), since := s.since + {Key()(m)});
    if s.up then written.(view := Receive(s.view, m), arrived := s.arrived + 1)
    else written.(missed := s.missed + {Key()(m)})
  }

  function Erase(s: Session, id: int): Session {
    s.(rows := Without(s.rows, id),
       view := if s.up then s.view.(messages := Without(s.view.messages, id)) else s.view)
  }

  function Wipe(s: Session): Session {
    s.(rows := [], view := if s.up then View([], None, None, false, s.view.fetching) else s.view)
  }

  /** Rows written since the last page and not shown any more, or never, are missed once the catch-up finishes. */
  ghost predicate Finishes(s: Session, s': Session) {
    && s.flight.Some? && s.flight.value.done && Finish(s.view, s.flight.value.incoming, s'.view)
    && s' == s.(view := s'.view, flight := None, since := {}, arrived := 0,
                missed := (s.missed - Ids(s.flight.value.incoming)) + (s.since - Ids(s.view.messages)))
  }

  ghost predicate Step(s: Session, e: Event, s': Session) {
    match e
    case Written(m) => m.Chat? && s.top < m.id && s' == Write(s, m)
    case Erased(id) => s' == Erase(s, id)
    case Wiped => s' == Wipe(s)
    case Told(m) => s.up && m.Other? && s' == s.(view := Receive(s.view, m), arrived := s.arrived + 1)
    case Lost => s.up && s' == s.(up := false, view := Capture(s.view))
    case Reopened => !s.up && s' == Begin(s.(up := true), false)
    case Hidden => s' == s.(view := Capture(s.view))
    case Forced => s' == Begin(s, true)
    case PageRead =>
      && s.flight.Some? && !s.flight.value.done
      && s' == s.(flight := Some(ReadPage(s.flight.value, s.rows)), since := {}, arrived := 0)
    case Finished => Finishes(s, s')
    case Failed => s.flight.Some? && s' == s.(flight := None, view := s.view.(fetching := None))
  }

  ghost predicate IsRun(states: seq<Session>, events: seq<Event>) {
    |states| == |events| + 1 && forall i :: 0 <= i < |events| ==> Step(states[i], events[i], states[i + 1])
  }

  // ---- what every state satisfies ----------------------------------------------------------------

  ghost predicate AllAtMost(ids: set<int>, top: int) {
    forall id :: id in ids ==> id <= top
  }

  ghost predicate Bounded(s: Session) {
    && Table(s.rows) && AllAtMost(Ids(s.rows), s.top) && AllAtMost(Ids(s.view.messages), s.top)
    && AllAtMost(s.missed, s.top) && AllAtMost(s.since, s.top)
    && (s.view.lastSynced.Some? ==> s.view.lastSynced.value <= s.top)
  }

  ghost predicate Orderly(v: View) {
    CursorInv(v) && AscendingChats(v.messages) && |v.messages| <= KEEP
  }

  /** Of the rows from some shown message on, exactly those are shown that were not missed. */
  ghost predicate ShowsWhatItHeard(shown: set<int>, rows: set<int>, missed: set<int>) {
    forall r, low :: r in rows && low in shown && low <= r ==> (r in shown <==> r !in missed)
  }

  /** A flight has every row between its start and its cursor; once done, all but those written since. */
  ghost predicate Gathers(f: Flight, rows: set<int>, since: set<int>) {
    && f.start <= f.cursor && Table(f.incoming)
    && (forall id :: id in Ids(f.incoming) ==> f.start < id <= f.cursor)
    && (forall id, u :: id in Ids(f.incoming) && u in since ==> id < u)
    && (forall r :: r in rows && f.start < r && (f.done || r <= f.cursor) ==>
          r in Ids(f.incoming) || (f.done && r in since))
  }

  ghost predicate FlightInv(s: Session) {
    match s.flight
    case None => s.view.fetching.None?
    case Some(f) =>
      && s.view.fetching == Some(f.start) && f.cursor <= s.top && Gathers(f, Ids(s.rows), s.since)
      && (s.view.lastSynced.Some? ==> f.start <= s.view.lastSynced.value)
  }

  /** Among the last `n` entries of the list. */
  predicate Among(ms: seq<Message>, n: nat, id: int) {
    exists p :: 0 <= p < |ms| && |ms| - n <= p && Is(ms[p], id)
  }

  /** Unless more than a list's worth has arrived since the last page, what was received since is still shown. */
  ghost predicate KeepsArrivals(s: Session) {
    s.arrived <= KEEP ==>
      forall r :: r in Ids(s.rows) && r in s.since && r !in s.missed ==> Among(s.view.messages, s.arrived, r)
  }

  ghost predicate Inv(s: Session) {
    && Bounded(s) && Orderly(s.view) && FlightInv(s) && KeepsArrivals(s)
    && ShowsWhatItHeard(Ids(s.view.messages), Ids(s.rows), s.missed)
  }

  // ---- reading a page ----------------------------------------------------------------------------

  lemma IdsJoin(a: seq<Message>, b: seq<Message>)
    ensures Ids(a + b) == Ids(a) + Ids(b)
  {
  }

  /** Which ids a page has: all of the table's between the cursor and the page's end, or to the table's end. */
  lemma PageIds(rows: seq<Message>, cursor: int)
    requires Table(rows)
    ensures var page := ListAfter(rows, cursor, PAGE_SIZE);
            && Table(page)
            && (forall id :: id in Ids(page) ==> id in Ids(rows) && cursor < id)
            && (page != [] ==> Key()(page[|page| - 1]) in Ids(page))
            && (page != [] ==> forall id :: id in Ids(page) ==> id <= Key()(page[|page| - 1]))
            && (page != [] ==> forall r :: r in Ids(rows) && cursor < r <= Key()(page[|page| - 1]) ==> r in Ids(page))
            && (|page| < PAGE_SIZE ==> forall r :: r in Ids(rows) && cursor < r ==> r in Ids(page))
  {
    var page := ListAfter(rows, cursor, PAGE_SIZE);
    PageIsTable(rows, cursor);
    forall id | id in Ids(page) ensures id in Ids(rows) && cursor < id {
      var q := Position(page, id);
      PageHolds(rows, cursor, PAGE_SIZE, page[q]);
    }
    forall r | r in Ids(rows) && cursor < r
      ensures r in Ids(page) || (|page| == PAGE_SIZE && Key()(page[|page| - 1]) < r)
    {
      var q := Position(rows, r);
      PageLeavesOut(rows, cursor, PAGE_SIZE, rows[q]);
    }
    if page != [] {
      HasId(page, |page| - 1);
      LatestIs(page);
      LastIsLatest(page, Latest(page));
    }
  }

  lemma PageJoins(incoming: seq<Message>, page: seq<Message>, cursor: int)
    requires Table(incoming) && Table(page)
    requires (forall id :: id in Ids(incoming) ==> id <= cursor) && forall id :: id in Ids(page) ==> cursor < id
    ensures Table(incoming + page) && Ids(incoming + page) == Ids(incoming) + Ids(page)
  {
    IdsJoin(incoming, page);
    forall m | m in incoming ensures Key()(m) <= cursor {
      assert Key()(m) in Ids(incoming);
    }
    forall m | m in page ensures cursor < Key()(m) {
      assert Key()(m) in Ids(page);
    }
    TablesJoin(incoming, page, cursor);
  }

  lemma ReadPageGathers(f: Flight, rows: seq<Message>, since: set<int>)
    requires Table(rows) && Gathers(f, Ids(rows), since) && !f.done
    ensures Gathers(ReadPage(f, rows), Ids(rows), {})
    ensures ReadPage(f, rows).cursor == f.cursor || ReadPage(f, rows).cursor in Ids(rows)
  {
    PageIds(rows, f.cursor);
    PageJoins(f.incoming, ListAfter(rows, f.cursor, PAGE_SIZE), f.cursor);
  }

  // ---- entries among the latest ------------------------------------------------------------------

  lemma AmongAfterReceive(ms: seq<Message>, m: Message, n: nat, id: int)
    requires Among(ms, n, id) && n + 1 <= KEEP
    ensures Among(Newest(ms + [m], KEEP), n + 1, id)
  {
    var p :| 0 <= p < |ms| && |ms| - n <= p && Is(ms[p], id);
    var all := ms + [m];
    var kept := Newest(all, KEEP);
    KeptAt(all, KEEP, p - (|all| - |kept|));
    assert Is(kept[p - (|all| - |kept|)], id);
  }

  lemma LastIsAmong(ms: seq<Message>, m: Message, n: nat)
    requires m.Chat?
    ensures Among(Newest(ms + [m], KEEP), n + 1, m.id)
  {
    var kept := Newest(ms + [m], KEEP);
    KeptAt(ms + [m], KEEP, |kept| - 1);
    assert Is(kept[|kept| - 1], m.id);
  }

  lemma {:induction false} WithoutShrinks(ms: seq<Message>, id: int)
    ensures |Without(ms, id)| <= |ms|
    ensures forall m :: m in Without(ms, id) ==> m in ms
  {
    if ms != [] {
      WithoutShrinks(ms[..|ms| - 1], id);
    }
  }

  lemma {:induction false} AmongAfterDelete(ms: seq<Message>, deleted: int, n: nat, id: int)
    requires Among(ms, n, id) && id != deleted
    ensures Among(Without(ms, deleted), n, id)
  {
    var p :| 0 <= p < |ms| && |ms| - n <= p && Is(ms[p], id);
    var (init, last) := (ms[..|ms| - 1], ms[|ms| - 1]);
    var kept := Without(ms, deleted);
    if p == |ms| - 1 {
      assert Is(kept[|kept| - 1], id);
    } else {
      assert Is(init[p], id);
      AmongAfterDelete(init, deleted, n - 1, id);
      var q :| 0 <= q < |Without(init, deleted)| && |Without(init, deleted)| - (n - 1) <= q
               && Is(Without(init, deleted)[q], id);
      assert Is(kept[q], id);
    }
  }

  lemma AmongIsShown(ms: seq<Message>, n: nat, id: int)
    requires Among(ms, n, id)
    ensures id in Ids(ms)
  {
    var p :| 0 <= p < |ms| && |ms| - n <= p && Is(ms[p], id);
    HasId(ms, p);
  }

  lemma LastIsKept(ms: seq<Message>, m: Message)
    requires m.Chat?
    ensures m.id in Ids(Newest(ms + [m], KEEP))
  {
    LastIsAmong(ms, m, 0);
    AmongIsShown(Newest(ms + [m], KEEP), 1, m.id);
  }

  // ---- every event keeps the invariant -----------------------------------------------------------

  lemma LoadedInv(rows: seq<Message>, top: int)
    requires Table(rows) && AllAtMost(Ids(rows), top)
    ensures Inv(Loaded(rows, top))
  {
    var list := Newest(rows, INITIAL_ROWS);
    LatestAtMost(list);
    LatestIs(list);
    NewestAscending(rows, INITIAL_ROWS);
    NewestIds(rows, INITIAL_ROWS);
    forall r, low | r in Ids(rows) && low in Ids(list) && low <= r ensures r in Ids(list) {
      LargerIsKept(rows, INITIAL_ROWS, low, r);
    }
  }

  lemma ReceivedIds(v: View, m: Message)
    requires AscendingChats(v.messages) && m.Chat? && forall id :: id in Ids(v.messages) ==> id < m.id
    ensures var shown := Ids(Receive(v, m).messages);
            && m.id in shown && shown <= Ids(v.messages) + {m.id}
            && forall low, r :: low in shown && r in Ids(v.messages) && low <= r ==> r in shown
    ensures AscendingChats(Receive(v, m).messages) && |Receive(v, m).messages| <= KEEP
    ensures Receive(v, m).messages == Newest(v.messages + [m], KEEP)
  {
    ShowsMeansIds(v.messages, m.id);
    IdsAppend(v.messages, m);
    NewestIds(v.messages + [m], KEEP);
    LastIsKept(v.messages, m);
    AppendAscends(v.messages, m);
    NewestAscends(v.messages + [m], KEEP);
    forall low, r | low in Ids(Newest(v.messages + [m], KEEP)) && r in Ids(v.messages) && low <= r
      ensures r in Ids(Newest(v.messages + [m], KEEP))
    {
      CutKeepsAbove(v.messages + [m], KEEP, low, r);
    }
  }

  lemma ShowsMeansIds(ms: seq<Message>, id: int)
    ensures Shows(ms, id) ==> id in Ids(ms)
  {
    if Shows(ms, id) {
      var i :| 0 <= i < |ms| && Is(ms[i], id);
      HasId(ms, i);
    }
  }

  lemma AppendedTable(rows: seq<Message>, m: Message)
    requires Table(rows) && m.Chat? && forall id :: id in Ids(rows) ==> id < m.id
    ensures Table(rows + [m]) && Ids(rows + [m]) == Ids(rows) + {m.id}
  {
    IdsAppend(rows, m);
    forall i | 0 <= i < |rows| ensures Key()(rows[i]) in Ids(rows) {
      assert rows[i] in rows;
      HasId(rows, i);
    }
  }

  lemma WriteGathers(f: Flight, rows: set<int>, since: set<int>, id: int)
    requires Gathers(f, rows, since) && f.cursor < id
    ensures Gathers(f, rows + {id}, since + {id})
  {
  }

  lemma WriteKeepsFlight(s: Session, m: Message)
    requires Inv(s) && m.Chat? && s.top < m.id
    ensures FlightInv(Write(s, m))
  {
    AppendedTable(s.rows, m);
    ShowsMeansIds(s.view.messages, m.id);
    if s.flight.Some? {
      WriteGathers(s.flight.value, Ids(s.rows), s.since, m.id);
    }
  }

  lemma WriteKeepsShown(s: Session, m: Message)
    requires Inv(s) && m.Chat? && s.top < m.id
    ensures ShowsWhatItHeard(Ids(Write(s, m).view.messages), Ids(Write(s, m).rows), Write(s, m).missed)
  {
    AppendedTable(s.rows, m);
    if s.up {
      ReceivedIds(s.view, m);
      HeardIsShown(Ids(s.view.messages), Ids(Write(s, m).view.messages), Ids(s.rows), s.missed, m.id, s.top);
    } else {
      UnheardIsMissed(Ids(s.view.messages), Ids(s.rows), s.missed, m.id, s.top);
    }
  }

  lemma HeardIsShown(shown: set<int>, after: set<int>, rows: set<int>, missed: set<int>, id: int, top: int)
    requires ShowsWhatItHeard(shown, rows, missed) && AllAtMost(missed, top) && AllAtMost(rows, top) && top < id
    requires id in after && after <= shown + {id}
    requires forall low, r :: low in after && r in shown && low <= r ==> r in after
    ensures ShowsWhatItHeard(after, rows + {id}, missed)
  {
  }

  lemma UnheardIsMissed(shown: set<int>, rows: set<int>, missed: set<int>, id: int, top: int)
    requires ShowsWhatItHeard(shown, rows, missed) && AllAtMost(shown, top) && AllAtMost(rows, top) && top < id
    ensures ShowsWhatItHeard(shown, rows + {id}, missed + {id})
  {
  }

  lemma WriteKeepsArrivals(s: Session, m: Message)
    requires Inv(s) && m.Chat? && s.top < m.id
    ensures KeepsArrivals(Write(s, m))
  {
    AppendedTable(s.rows, m);
    if s.up && s.arrived < KEEP {
      ReceivedIds(s.view, m);
      LastIsAmong(s.view.messages, m, s.arrived);
      forall r | r in Ids(s.rows) && r in s.since && r !in s.missed
        ensures Among(Newest(s.view.messages + [m], KEEP), s.arrived + 1, r)
      {
        AmongAfterReceive(s.view.messages, m, s.arrived, r);
      }
    }
  }

  lemma WriteKeepsInv(s: Session, m: Message)
    requires Inv(s) && m.Chat? && s.top < m.id
    ensures Inv(Write(s, m))
  {
    AppendedTable(s.rows, m);
    if s.up {
      ReceivedIds(s.view, m);
      StepKeepsCursorInv(s.view, Received(m), Receive(s.view, m));
    }
    WriteKeepsFlight(s, m);
    WriteKeepsShown(s, m);
    WriteKeepsArrivals(s, m);
  }

  lemma WithoutTable(rows: seq<Message>, id: int)
    requires Table(rows)
    ensures Table(Without(rows, id)) && Ids(Without(rows, id)) == Ids(rows) - {id}
  {
    WithoutIds(rows, id);
    WithoutShrinks(rows, id);
    assert forall i :: 0 <= i < |rows| ==> rows[i] in rows;
    WithoutAscends(rows, id);
    var kept := Without(rows, id);
    assert forall i :: 0 <= i < |kept| ==> kept[i] in kept && kept[i] in rows;
  }

  lemma EraseKeepsArrivals(s: Session, id: int)
    requires Inv(s)
    ensures KeepsArrivals(Erase(s, id))
  {
    WithoutIds(s.rows, id);
    if s.up && s.arrived <= KEEP {
      forall r | r in Ids(s.rows) - {id} && r in s.since && r !in s.missed
        ensures Among(Without(s.view.messages, id), s.arrived, r)
      {
        AmongAfterDelete(s.view.messages, id, s.arrived, r);
      }
    }
  }

  lemma EraseKeepsInv(s: Session, id: int)
    requires Inv(s)
    ensures Inv(Erase(s, id))
  {
    WithoutTable(s.rows, id);
    EraseKeepsArrivals(s, id);
    if s.up {
      WithoutIds(s.view.messages, id);
      WithoutAscends(s.view.messages, id);
      WithoutShrinks(s.view.messages, id);
    }
  }

  lemma WipeKeepsInv(s: Session)
    requires Inv(s)
    ensures Inv(Wipe(s))
  {
    assert Ids([]) == {};
  }

  lemma ToldKeepsInv(s: Session, m: Message)
    requires Inv(s) && m.Other?
    ensures Inv(s.(view := Receive(s.view, m), arrived := s.arrived + 1))
  {
    var all := s.view.messages + [m];
    AppendAscends(s.view.messages, m);
    NewestAscends(all, KEEP);
    NewestIds(all, KEEP);
    IdsAppend(s.view.messages, m);
    StepKeepsCursorInv(s.view, Received(m), Receive(s.view, m));
    forall low, r | low in Ids(Newest(all, KEEP)) && r in Ids(s.view.messages) && low <= r
      ensures r in Ids(Newest(all, KEEP))
    {
      CutKeepsAbove(all, KEEP, low, r);
    }
    if s.arrived < KEEP {
      forall r | r in Ids(s.rows) && r in s.since && r !in s.missed ensures Among(Newest(all, KEEP), s.arrived + 1, r) {
        AmongAfterReceive(s.view.messages, m, s.arrived, r);
      }
    }
  }

  lemma CaptureKeepsInv(s: Session, up: bool)
    requires Inv(s)
    ensures Inv(s.(up := up, view := Capture(s.view)))
  {
    LatestIs(s.view.messages);
  }

  lemma BeginKeepsInv(s: Session, force: bool)
    requires Inv(s)
    ensures Inv(Begin(s, force))
  {
    LatestIs(s.view.messages);
    assert Ids([]) == {};
  }

  lemma PageReadKeepsInv(s: Session)
    requires Inv(s) && s.flight.Some? && !s.flight.value.done
    ensures Inv(s.(flight := Some(ReadPage(s.flight.value, s.rows)), since := {}, arrived := 0))
  {
    ReadPageGathers(s.flight.value, s.rows, s.since);
  }

  // ---- finishing a catch-up ----------------------------------------------------------------------

  lemma MergeAscends(current: seq<Message>, incoming: seq<Message>, merged: seq<Message>)
    requires IsMerge(current, incoming, merged)
    ensures AscendingChats(merged) && |merged| <= KEEP
  {
    var (others, chats) := (OthersOf(merged), ChatsOf(merged));
    OthersHaveNoChat(merged);
    forall i, j | 0 <= i < j < |merged| && merged[i].Chat? && merged[j].Chat?
      ensures Key()(merged[i]) < Key()(merged[j])
    {
      PartOf(others, chats, i);
      PartOf(others, chats, j);
    }
  }

  lemma PartOf(others: seq<Message>, chats: seq<Message>, i: nat)
    requires NoChat(others) && i < |others + chats| && (others + chats)[i].Chat?
    ensures i >= |others| && (others + chats)[i] == chats[i - |others|]
  {
    forall k | 0 <= k < |others| ensures (others + chats)[k].Other? {
      assert (others + chats)[k] == others[k] && others[k] in others;
    }
  }

  /** What is shown after a catch-up: the merge, or the list as it was when nothing came. */
  ghost predicate ShownAfter(shown: set<int>, fetched: set<int>, after: set<int>) {
    if fetched == {} then after == shown else LargestOf(after, shown + fetched, KEEP)
  }

  lemma FinishShows(s: Session, s': Session)
    requires Inv(s) && Finishes(s, s')
    ensures ShownAfter(Ids(s.view.messages), Ids(s.flight.value.incoming), Ids(s'.view.messages))
    ensures Orderly(s'.view)
  {
    var incoming := s.flight.value.incoming;
    FinishKeepsInv(s.view, incoming, s'.view);
    if incoming == [] {
      assert Ids(incoming) == {};
    } else {
      assert incoming[0] in incoming;
      HasId(incoming, 0);
      MergeAscends(s.view.messages, incoming, s'.view.messages);
    }
  }

  lemma FinishKeepsShown(f: Flight, shown: set<int>, after: set<int>, rows: set<int>, missed: set<int>, since: set<int>)
    requires Gathers(f, rows, since) && f.done && ShowsWhatItHeard(shown, rows, missed)
    requires ShownAfter(shown, Ids(f.incoming), after)
    ensures ShowsWhatItHeard(after, rows, (missed - Ids(f.incoming)) + (since - shown))
  {
    var fetched := Ids(f.incoming);
    var missed' := (missed - fetched) + (since - shown);
    forall r, low | r in rows && low in after && low <= r ensures r in after <==> r !in missed' {
      assert low in shown + fetched;
      assert r in shown ==> r !in missed;
      assert r in shown + fetched ==> r in after;
      if r !in missed' && r !in fetched && low !in shown {
        assert f.start < low <= r;
      }
    }
  }

  lemma FinishStaysBounded(s: Session, s': Session)
    requires Inv(s) && Finishes(s, s')
    ensures Bounded(s')
  {
    var incoming := s.flight.value.incoming;
    FinishShows(s, s');
    LatestIs(incoming);
    LatestIs(s.view.messages);
    assert AllAtMost(Ids(incoming), s.top);
  }

  lemma FinishedKeepsInv(s: Session, s': Session)
    requires Inv(s) && Finishes(s, s')
    ensures Inv(s')
  {
    FinishShows(s, s');
    FinishStaysBounded(s, s');
    FinishKeepsShown(s.flight.value, Ids(s.view.messages), Ids(s'.view.messages), Ids(s.rows), s.missed, s.since);
  }

  lemma StepKeepsInv(s: Session, e: Event, s': Session)
    requires Inv(s) && Step(s, e, s')
    ensures Inv(s')
  {
    match e
    case Written(m) => WriteKeepsInv(s, m);
    case Erased(id) => EraseKeepsInv(s, id);
    case Wiped => WipeKeepsInv(s);
    case Told(m) => ToldKeepsInv(s, m);
    case Lost => CaptureKeepsInv(s, false);
    case Reopened => BeginKeepsInv(s.(up := true), false);
    case Hidden => CaptureKeepsInv(s, s.up);
    case Forced => BeginKeepsInv(s, true);
    case PageRead => PageReadKeepsInv(s);
    case Finished => FinishedKeepsInv(s, s');
    case Failed =>
  }

  lemma {:induction false} RunKeepsInv(states: seq<Session>, events: seq<Event>, n: nat)
    requires IsRun(states, events) && Inv(states[0]) && n <= |events|
    ensures Inv(states[n])
  {
    if n > 0 {
      RunKeepsInv(states, events, n - 1);
      StepKeepsInv(states[n - 1], events[n - 1], states[n]);
    }
  }

  // ---- holes -------------------------------------------------------------------------------------

  lemma NoHoleInIds(shown: set<int>, rows: seq<Message>)
    requires Table(rows)
    ensures NoHole(shown, rows) <==> forall r, low :: r in Ids(rows) && low in shown && low <= r ==> r in shown
  {
    if NoHole(shown, rows) {
      forall r, low | r in Ids(rows) && low in shown && low <= r ensures r in shown {
        var q := Position(rows, r);
        assert Covers(shown, rows, r) && rows[q] in rows;
      }
    }
    forall m | m in rows ensures Key()(m) in Ids(rows) {
    }
  }

  /**
   In every reachable state: the shown list has a hole exactly if it has missed a row that comes after a shown
   message, that is, one written while the socket was down that no finished catch-up has read, or one that
   arrived after the last page and was cut from the list before the catch-up finished.
   */
  lemma HoleIffMissed(states: seq<Session>, events: seq<Event>, rows: seq<Message>, top: int, n: nat)
    requires IsRun(states, events) && n <= |events|
    requires Table(rows) && AllAtMost(Ids(rows), top) && states[0] == Loaded(rows, top)
    ensures var (shown, table) := (Ids(states[n].view.messages), states[n].rows);
            NoHole(shown, table) <==>
              forall r, low :: r in Ids(table) && low in shown && low <= r ==> r !in states[n].missed
  {
    LoadedInv(rows, top);
    RunKeepsInv(states, events, n);
    NoHoleInIds(Ids(states[n].view.messages), states[n].rows);
  }

  /** After the merge something older than `r` is still shown. */
  ghost predicate LeavesOlder(shown: set<int>, fetched: set<int>, r: int) {
    (exists low :: low in shown && low < r) || (fetched != {} && |shown| < KEEP)
  }

  /**
   Where the page goes wrong: a message is written while the socket is down and nothing is owed; or a catch-up
   finishes although a row written since its last page was read is not shown.
   */
  ghost predicate Lapse(s: Session, e: Event) {
    match e
    case Written(_) => !s.up && !s.view.needsBackfill && Ids(s.view.messages) != {}
    case Finished =>
      s.flight.Some? && exists r :: r in Ids(s.rows) && r in s.since && r !in Ids(s.view.messages)
                          && LeavesOlder(Ids(s.view.messages), Ids(s.flight.value.incoming), r)
    case _ => false
  }

  /** Every missed row is either still owed or older than everything shown. */
  ghost predicate Recoverable(v: View, rows: set<int>, missed: set<int>) {
    forall r :: r in rows && r in missed ==>
      || (v.needsBackfill && v.lastSynced.Some? && v.lastSynced.value < r)
      || forall low :: low in Ids(v.messages) ==> r < low
  }

  lemma {:induction false} IdsCount(ms: seq<Message>)
    ensures |Ids(ms)| <= |ms|
  {
    if ms == [] {
      assert Ids(ms) == {};
    } else {
      var (init, m) := (ms[..|ms| - 1], ms[|ms| - 1]);
      IdsCount(init);
      IdsAppend(init, m);
      assert ms == init + [m];
    }
  }

  lemma Outside<T>(a: set<T>, b: set<T>) returns (x: T)
    requires !(a <= b)
    ensures x in a && x !in b
  {
    x :| x in a && x !in b;
  }

  /** A merge that drops an id of either side has kept as many as it may. */
  lemma DroppedMeansFull(after: set<int>, all: set<int>, dropped: int)
    requires LargestOf(after, all, KEEP) && dropped in all && dropped !in after
    ensures |after| == KEEP
  {
    SubsetCard(after, all);
  }

  lemma OlderIsShown(shown: set<int>, fetched: set<int>, after: set<int>, r: int) returns (low: int)
    requires ShownAfter(shown, fetched, after) && |shown| <= KEEP && r !in shown
    requires (forall id :: id in fetched ==> id < r) && LeavesOlder(shown, fetched, r)
    ensures low in after && low < r
  {
    if older :| older in shown && older < r {
      low := older;
      if older !in after {
        DroppedMeansFull(after, shown + fetched, older);
        if after <= shown - {older} {
          SubsetCard(after, shown - {older});
          assert false;
        }
        low := Outside(after, shown - {older});
      }
    } else {
      low := Outside(fetched, {});
      if low !in after {
        DroppedMeansFull(after, shown + fetched, low);
        if after <= shown {
          SubsetCard(after, shown);
          assert false;
        }
        low := Outside(after, shown);
      }
    }
  }

  lemma NoOlderIsShown(shown: set<int>, fetched: set<int>, after: set<int>, r: int)
    requires ShownAfter(shown, fetched, after) && r !in shown
    requires (forall id :: id in fetched ==> id < r) && !LeavesOlder(shown, fetched, r)
    ensures forall low :: low in after ==> r < low
  {
    forall k | k in shown ensures r < k {
    }
    if fetched != {} {
      forall low | low in after ensures low in shown {
        if low !in shown {
          assert shown + {low} <= after;
          SubsetCard(shown + {low}, after);
          assert false;
        }
      }
    }
  }

  lemma WriteStaysRecoverable(s: Session, m: Message)
    requires Inv(s) && Recoverable(s.view, Ids(s.rows), s.missed) && m.Chat? && s.top < m.id
    requires !Lapse(s, Written(m))
    ensures var s' := Write(s, m); Recoverable(s'.view, Ids(s'.rows), s'.missed)
  {
    AppendedTable(s.rows, m);
    if s.up {
      ReceivedIds(s.view, m);
    }
  }

  lemma FinishStaysRecoverable(s: Session, s': Session)
    requires Inv(s) && Recoverable(s.view, Ids(s.rows), s.missed) && Finishes(s, s')
    requires !Lapse(s, Finished)
    ensures Recoverable(s'.view, Ids(s'.rows), s'.missed)
  {
    var (shown, fetched, after) := (Ids(s.view.messages), Ids(s.flight.value.incoming), Ids(s'.view.messages));
    FinishShows(s, s');
    forall r | r in Ids(s.rows) && r in s'.missed ensures forall low :: low in after ==> r < low {
      if r in s.since && r !in shown {
        NoOlderIsShown(shown, fetched, after, r);
      } else {
        assert r in s.missed && r !in fetched;
        MissedBefore(s, r);
        assert after <= shown + fetched;
      }
    }
  }

  /** A missed row that a finished catch-up has neither read nor been too late for lies before its start. */
  lemma MissedBefore(s: Session, r: int)
    requires Inv(s) && Recoverable(s.view, Ids(s.rows), s.missed) && s.flight.Some? && s.flight.value.done
    requires r in Ids(s.rows) && r in s.missed && r !in Ids(s.flight.value.incoming)
    requires !(r in s.since && r !in Ids(s.view.messages))
    ensures r <= s.flight.value.start && forall low :: low in Ids(s.view.messages) ==> r < low
  {
    assert r in Ids(s.view.messages) ==> r !in s.missed;
  }

  lemma StepStaysRecoverable(s: Session, e: Event, s': Session)
    requires Inv(s) && Recoverable(s.view, Ids(s.rows), s.missed) && Step(s, e, s') && !Lapse(s, e)
    ensures Recoverable(s'.view, Ids(s'.rows), s'.missed)
  {
    match e
    case Written(m) => WriteStaysRecoverable(s, m);
    case Erased(id) =>
      WithoutIds(s.rows, id);
      WithoutIds(s.view.messages, id);
    case Wiped => assert Ids([]) == {};
    case Told(m) =>
      NewestIds(s.view.messages + [m], KEEP);
      IdsAppend(s.view.messages, m);
    case Lost =>
    case Reopened =>
    case Hidden =>
    case Forced =>
    case PageRead =>
    case Finished => FinishStaysRecoverable(s, s');
    case Failed =>
  }

  lemma LoadedRecoverable(rows: seq<Message>, top: int)
    ensures var s := Loaded(rows, top); Recoverable(s.view, Ids(s.rows), s.missed)
  {
  }

  /** Without a lapse every missed row can still be fetched, or is older than everything shown. */
  lemma {:induction false} RunStaysRecoverable(states: seq<Session>, events: seq<Event>, n: nat)
    requires IsRun(states, events) && n <= |events| && Inv(states[0])
    requires Recoverable(states[0].view, Ids(states[0].rows), states[0].missed)
    requires forall i :: 0 <= i < n ==> !Lapse(states[i], events[i])
    ensures Recoverable(states[n].view, Ids(states[n].rows), states[n].missed)
  {
    if n > 0 {
      RunStaysRecoverable(states, events, n - 1);
      RunKeepsInv(states, events, n - 1);
      StepStaysRecoverable(states[n - 1], events[n - 1], states[n]);
    }
  }

  lemma LapseOpensHole(s: Session, e: Event, s': Session)
    requires Inv(s) && Step(s, e, s') && Lapse(s, e)
    ensures !s'.view.needsBackfill && !NoHole(Ids(s'.view.messages), s'.rows)
  {
    StepKeepsInv(s, e, s');
    NoHoleInIds(Ids(s'.view.messages), s'.rows);
    if e.Written? {
      AppendedTable(s.rows, e.message);
      var low := Outside(Ids(s.view.messages), {});
      assert e.message.id in Ids(s'.rows) && low in Ids(s'.view.messages) && low <= e.message.id;
    } else {
      var (shown, fetched) := (Ids(s.view.messages), Ids(s.flight.value.incoming));
      var r :| r in Ids(s.rows) && r in s.since && r !in shown && LeavesOlder(shown, fetched, r);
      FinishShows(s, s');
      IdsCount(s.view.messages);
      var low := OlderIsShown(shown, fetched, Ids(s'.view.messages), r);
      assert r !in Ids(s'.view.messages);
    }
  }

  lemma RecoverableHasNoHole(s: Session)
    requires Inv(s) && Recoverable(s.view, Ids(s.rows), s.missed)
    ensures !s.view.needsBackfill ==> NoHole(Ids(s.view.messages), s.rows)
    ensures s.view.lastSynced.Some? ==> Covers(Ids(s.view.messages), s.rows, s.view.lastSynced.value)
  {
    NoHoleInIds(Ids(s.view.messages), s.rows);
    forall m | m in s.rows ensures Key()(m) in Ids(s.rows) {
    }
  }

  ghost predicate NoHoleUnlessOwed(s: Session) {
    !s.view.needsBackfill ==> NoHole(Ids(s.view.messages), s.rows)
  }

  /**
   A whole visit, exactly: in every state that owes no catch-up the shown list has no hole in the table as it
   is then, if and only if no lapse happens, whatever order messages, deletions, disconnections, hidings and
   catch-ups come in.
   */
  lemma SessionHasNoHoleIff(states: seq<Session>, events: seq<Event>, rows: seq<Message>, top: int)
    requires IsRun(states, events)
    requires Table(rows) && AllAtMost(Ids(rows), top) && states[0] == Loaded(rows, top)
    ensures (forall n :: 0 <= n < |states| ==> NoHoleUnlessOwed(states[n]))
       <==> (forall n :: 0 <= n < |events| ==> !Lapse(states[n], events[n]))
  {
    LoadedInv(rows, top);
    LoadedRecoverable(rows, top);
    if forall n :: 0 <= n < |events| ==> !Lapse(states[n], events[n]) {
      forall n | 0 <= n < |states| ensures NoHoleUnlessOwed(states[n]) {
        RunKeepsInv(states, events, n);
        RunStaysRecoverable(states, events, n);
        RecoverableHasNoHole(states[n]);
      }
    }
    if forall n :: 0 <= n < |states| ==> NoHoleUnlessOwed(states[n]) {
      forall n | 0 <= n < |events| ensures !Lapse(states[n], events[n]) {
        if Lapse(states[n], events[n]) {
          LapseAt(states, events, n);
          assert false;
        }
      }
    }
  }

  lemma LapseAt(states: seq<Session>, events: seq<Event>, n: nat)
    requires IsRun(states, events) && Inv(states[0]) && n < |events| && Lapse(states[n], events[n])
    ensures !NoHoleUnlessOwed(states[n + 1])
  {
    RunKeepsInv(states, events, n);
    LapseOpensHole(states[n], events[n], states[n + 1]);
  }

  /** Until a lapse happens, even a page that owes a catch-up has no hole up to its cursor. */
  lemma NoHoleUpToCursor(states: seq<Session>, events: seq<Event>, rows: seq<Message>, top: int, n: nat)
    requires IsRun(states, events) && n <= |events|
    requires Table(rows) && AllAtMost(Ids(rows), top) && states[0] == Loaded(rows, top)
    requires forall i :: 0 <= i < n ==> !Lapse(states[i], events[i])
    ensures var v := states[n].view;
            v.lastSynced.Some? ==> Covers(Ids(v.messages), states[n].rows, v.lastSynced.value)
  {
    LoadedInv(rows, top);
    LoadedRecoverable(rows, top);
    RunKeepsInv(states, events, n);
    RunStaysRecoverable(states, events, n);
    RecoverableHasNoHole(states[n]);
  }

  /** Capturing the cursor of such a page begins an absence. */
  lemma CaptureBeginsAbsence(s: Session, s': Session)
    requires Inv(s) && Recoverable(s.view, Ids(s.rows), s.missed) && Step(s, Hidden, s')
    requires s.view.lastSynced.Some? && (s.flight.Some? ==> s.flight.value.start == s.view.lastSynced.value)
    ensures Away(s'.view, s.view.lastSynced.value, s'.rows)
  {
    StepKeepsInv(s, Hidden, s');
    RecoverableHasNoHole(s);
  }

  /**
   What the cut to 200 entries needs: as long as no more than 200 messages have arrived since the last page was
   read, none of them has left the list, so that a finishing catch-up can only have missed what was written
   while the socket was down.
   */
  lemma CutNeedsMoreArrivals(s: Session)
    requires Inv(s) && s.arrived <= KEEP && Lapse(s, Finished)
    ensures exists r :: r in Ids(s.rows) && r in s.since && r in s.missed
  {
    var r :| r in Ids(s.rows) && r in s.since && r !in Ids(s.view.messages);
    if r !in s.missed {
      AmongIsShown(s.view.messages, s.arrived, r);
    }
  }

  /** A hole that is open when the socket comes back stays open: nothing is owed, so nothing is fetched. */
  lemma ReopeningKeepsHole(s: Session, s': Session)
    requires Step(s, Reopened, s') && !s.view.needsBackfill && !NoHole(Ids(s.view.messages), s.rows)
    ensures s'.up && !s'.view.needsBackfill && !NoHole(Ids(s'.view.messages), s'.rows)
  {
  }

  // ---- when a catch-up starts --------------------------------------------------------------------

  function FreshFlight(start: int): Flight {
    Flight(start, start, [], false)
  }

  /**
   In every reachable state: a reopened socket starts a catch-up at the cursor exactly when one is owed and none
   is in flight.
   */
  lemma ReopeningFetchesWhatIsOwed(states: seq<Session>, events: seq<Event>, rows: seq<Message>, top: int, n: nat)
    requires IsRun(states, events) && n < |events| && events[n] == Reopened
    requires Table(rows) && AllAtMost(Ids(rows), top) && states[0] == Loaded(rows, top)
    ensures var (s, s') := (states[n], states[n + 1]);
            && s'.up
            && (s.view.needsBackfill && s.flight.None? ==>
                  s.view.lastSynced.Some? && s'.flight == Some(FreshFlight(s.view.lastSynced.value)))
            && (!s.view.needsBackfill || s.flight.Some? ==> s'.flight == s.flight)
  {
    LoadedInv(rows, top);
    RunKeepsInv(states, events, n);
    StartsWhenOwedOrForced(states[n].view, false);
    assert Step(states[n], Reopened, states[n + 1]);
  }

  /** A forced catch-up starts at the cursor, owed or not, unless one is in flight or there is no cursor. */
  lemma ForcingFetchesFromCursor(states: seq<Session>, events: seq<Event>, rows: seq<Message>, top: int, n: nat)
    requires IsRun(states, events) && n < |events| && events[n] == Forced
    requires Table(rows) && AllAtMost(Ids(rows), top) && states[0] == Loaded(rows, top)
    ensures var (s, s') := (states[n], states[n + 1]);
            s'.flight == if s.flight.None? && s.view.lastSynced.Some? then Some(FreshFlight(s.view.lastSynced.value))
                         else s.flight
  {
    LoadedInv(rows, top);
    RunKeepsInv(states, events, n);
    StartsWhenOwedOrForced(states[n].view, true);
    assert Step(states[n], Forced, states[n + 1]);
  }

  /** Nothing else starts a catch-up. */
  lemma OnlyReopeningAndForcingFetch(s: Session, e: Event, s': Session)
    requires Step(s, e, s') && s.flight.None? && s'.flight.Some?
    ensures e == Forced || (e == Reopened && s.view.needsBackfill)
  {
  }

  // ---- the page at work --------------------------------------------------------------------------

  /** The socket was lost at message 1, message 2 has been written meanwhile, and a catch-up is owed. */
  function Behind(up: bool, flight: Option<Flight>): Session {
    var fetching := if flight.Some? then Some(flight.value.start) else None;
    var since := if flight.Some? then {} else {2};
    Session(View([Line(1)], Some(1), Some(1), true, fetching), up, [Line(1), Line(2)], 2, flight, {2}, since, 0)
  }

  function CaughtUp(): Session {
    Session(View([Line(1), Line(2)], Some(2), Some(2), false, None), true, [Line(1), Line(2)], 2, None, {}, {}, 0)
  }

  lemma WrittenWhileDown()
    ensures Step(Following(true), Lost, Owing(None)) && Step(Owing(None), Written(Line(2)), Behind(false, None))
  {
    assert [Line(1)] + [Line(2)] == [Line(1), Line(2)];
  }

  lemma ReopenedAndRead()
    ensures Step(Behind(false, None), Reopened, Behind(true, Some(FreshFlight(1))))
    ensures Step(Behind(true, Some(FreshFlight(1))), PageRead, Behind(true, Some(Flight(1, 2, [Line(2)], true))))
  {
    var rows := [Line(1), Line(2)];
    assert rows[1..] == [Line(2)] && [Line(2)][0] == Line(2);
    assert FirstAbove([Line(2)], 1) == 0 && FirstAbove(rows, 1) == 1;
    assert ListAfter(rows, 1, PAGE_SIZE) == [Line(2)];
    assert [] + [Line(2)] == [Line(2)];
  }

  lemma TwoIds()
    ensures Ids([Line(1)]) == {1} && Ids([Line(2)]) == {2} && Ids([Line(1), Line(2)]) == {1, 2}
  {
    assert [Line(1)] == [] + [Line(1)] && [Line(2)] == [] + [Line(2)] && [Line(1), Line(2)] == [Line(1)] + [Line(2)];
    assert Ids([]) == {};
    IdsAppend([], Line(1));
    IdsAppend([], Line(2));
    IdsAppend([Line(1)], Line(2));
  }

  lemma OnlyChats(ms: seq<Message>)
    requires AllChat(ms)
    ensures ChatsOf(ms) == ms && OthersOf(ms) == []
  {
    Separates([], ms);
    assert [] + ms == ms;
  }

  lemma ChosenOfTwo()
    ensures Chosen([Line(1)], [Line(2)], 1) == Some(Line(1)) && Chosen([Line(1)], [Line(2)], 2) == Some(Line(2))
  {
    assert [Line(1)][..0] == [] && [Line(2)][..0] == [];
    assert LastWith([Line(1)], 2) == LastWith([], 2);
    assert FirstWith([], 2).None?;
  }

  lemma TwoAreAscending()
    ensures Table([Line(1), Line(2)])
  {
  }

  lemma TwoAreLargest()
    ensures LargestOf(Ids([Line(1), Line(2)]), Ids([Line(1)]) + Ids([Line(2)]), KEEP)
  {
    TwoIds();
    assert {1} + {2} == {1, 2};
  }

  lemma NoOthers()
    ensures OthersOf([Line(1)]) == [] && NoChat([]) && Newest<Message>([], KEEP - 2) == []
  {
    OnlyChats([Line(1)]);
  }

  lemma AppendNothing<T>(s: seq<T>)
    ensures [] + s == s
  {
  }

  lemma MergesTwo()
    ensures IsMerge([Line(1)], [Line(2)], [Line(1), Line(2)])
  {
    TwoAreAscending();
    TwoAreLargest();
    ChosenOfTwo();
    NoOthers();
    TogetherAreMerge([Line(1)], [Line(2)], [], [Line(1), Line(2)]);
    AppendNothing([Line(1), Line(2)]);
  }

  lemma FinishesWithTwo()
    ensures Finishes(Behind(true, Some(Flight(1, 2, [Line(2)], true))), CaughtUp())
  {
    TwoIds();
    MergesTwo();
    LatestOfOne();
    LatestIs([Line(2)]);
    assert Latest([Line(2)]) == Some(2);
    assert {2} - {2} == {};
    assert ({2} - {2}) + ({} - {1}) == {};
  }

  /** A run that catches up: what was written while the socket was down is shown after the reopening. */
  lemma ReopeningCatchesUp()
    ensures Step(Following(true), Lost, Owing(None)) && Step(Owing(None), Written(Line(2)), Behind(false, None))
    ensures Step(Behind(false, None), Reopened, Behind(true, Some(FreshFlight(1))))
    ensures Step(Behind(true, Some(FreshFlight(1))), PageRead, Behind(true, Some(Flight(1, 2, [Line(2)], true))))
    ensures Step(Behind(true, Some(Flight(1, 2, [Line(2)], true))), Finished, CaughtUp())
    ensures CaughtUp().up && !CaughtUp().view.needsBackfill && 2 in Ids(CaughtUp().view.messages)
  {
    WrittenWhileDown();
    ReopenedAndRead();
    FinishesWithTwo();
    TwoIds();
  }

  /**
   A lapse can be mended before the socket is back: hiding the page captures the cursor, which still lies below
   the message, so that the next catch-up is owed again and starts below it.
   */
  lemma HidingMendsLapse(s: Session, m: Message, written: Session, hidden: Session)
    requires Inv(s) && Recoverable(s.view, Ids(s.rows), s.missed) && Lapse(s, Written(m))
    requires Step(s, Written(m), written) && Step(written, Hidden, hidden)
    ensures Recoverable(hidden.view, Ids(hidden.rows), hidden.missed) && hidden.view.needsBackfill
  {
    AppendedTable(s.rows, m);
  }

  // ---- the page at fault -------------------------------------------------------------------------

  function Line(id: int): Message {
    Chat(id, "")
  }

  /** Message 1 is shown and everything up to it known. */
  function Following(up: bool): Session {
    Session(View([Line(1)], Some(1), Some(1), false, None), up, [Line(1)], 1, None, {}, {}, 0)
  }

  function Owing(flight: Option<Flight>): Session {
    var fetching := if flight.Some? then Some(flight.value.start) else None;
    Session(View([Line(1)], Some(1), Some(1), true, fetching), false, [Line(1)], 1, flight, {}, {}, 0)
  }

  /** Message 2 has been written while the socket was down. */
  function Unaware(up: bool): Session {
    Session(View([Line(1)], Some(1), Some(1), false, None), up, [Line(1), Line(2)], 2, None, {2}, {2}, 0)
  }

  function Overtaken(): Session {
    Session(View([Line(1), Line(3)], Some(3), Some(3), false, None), true,
            [Line(1), Line(2), Line(3)], 3, None, {2}, {2, 3}, 1)
  }

  /**
   The socket drops and the cursor is captured; before it is back the window gets the focus, and that catch-up
   succeeds and clears the debt. Message 2 is written. The socket reopens and, as nothing is owed, nothing is
   fetched. Message 3 arrives and takes the cursor past message 2 for good.
   */
  function FocusState(n: nat): Session {
    if n == 0 then Loaded([Line(1)], 1)
    else if n == 1 then Following(true)
    else if n == 2 then Owing(None)
    else if n == 3 then Owing(Some(Flight(1, 1, [], false)))
    else if n == 4 then Owing(Some(Flight(1, 1, [], true)))
    else if n == 5 then Following(false)
    else if n == 6 then Unaware(false)
    else if n == 7 then Unaware(true)
    else Overtaken()
  }

  function FocusEvent(n: nat): Event {
    if n == 0 then Reopened
    else if n == 1 then Lost
    else if n == 2 then Forced
    else if n == 3 then PageRead
    else if n == 4 then Finished
    else if n == 5 then Written(Line(2))
    else if n == 6 then Reopened
    else Written(Line(3))
  }

  function FocusWhileDown(): (seq<Session>, seq<Event>) {
    (seq(9, n requires 0 <= n < 9 => FocusState(n)), seq(8, n requires 0 <= n < 8 => FocusEvent(n)))
  }

  lemma LatestOfOne()
    ensures Latest([Line(1)]) == Some(1) && Latest([]) == None
  {
    assert [Line(1)][..0] == [];
  }

  lemma LoadedOne()
    ensures Loaded([Line(1)], 1) == Following(false)
  {
    LatestOfOne();
  }

  lemma EmptyPage()
    ensures ReadPage(Flight(1, 1, [], false), [Line(1)]) == Flight(1, 1, [], true)
  {
    assert [Line(1)][1..] == [];
    assert FirstAbove([Line(1)], 1) == 1;
    assert ListAfter([Line(1)], 1, PAGE_SIZE) == [];
  }

  lemma EmptyFinish()
    ensures Finishes(Owing(Some(Flight(1, 1, [], true))), Following(false))
  {
    LatestOfOne();
    assert Ids([]) == {};
  }

  lemma DebtIsPaidWhileDown()
    ensures Step(Following(false), Reopened, Following(true)) && Step(Following(true), Lost, Owing(None))
    ensures Step(Owing(None), Forced, Owing(Some(Flight(1, 1, [], false))))
    ensures Step(Owing(Some(Flight(1, 1, [], false))), PageRead, Owing(Some(Flight(1, 1, [], true))))
    ensures Step(Owing(Some(Flight(1, 1, [], true))), Finished, Following(false))
  {
    LatestOfOne();
    EmptyPage();
    EmptyFinish();
  }

  lemma WritesGoUnnoticed()
    ensures Step(Following(false), Written(Line(2)), Unaware(false)) && Lapse(Following(false), Written(Line(2)))
    ensures Step(Unaware(false), Reopened, Unaware(true))
    ensures Step(Unaware(true), Written(Line(3)), Overtaken())
  {
    assert [Line(1)] + [Line(2)] == [Line(1), Line(2)];
    assert Line(1) in [Line(1)] && 1 in Ids([Line(1)]);
    assert !Shows([Line(1)], 3);
    assert [Line(1)] + [Line(3)] == [Line(1), Line(3)];
    assert [Line(1), Line(2)] + [Line(3)] == [Line(1), Line(2), Line(3)];
  }

  lemma OvertakenHasHole()
    ensures !NoHole(Ids(Overtaken().view.messages), Overtaken().rows)
  {
    var (ms, rows) := ([Line(1), Line(3)], [Line(1), Line(2), Line(3)]);
    assert ms[0] == Line(1) && Line(1) in ms && 1 in Ids(ms) && 2 !in Ids(ms);
    assert rows[1] == Line(2) && Line(2) in rows;
    assert Key()(Line(2)) == 2;
    assert !Covers(Ids(ms), rows, 2);
  }

  lemma FocusStepsBefore(n: nat)
    requires n < 5
    ensures Step(FocusState(n), FocusEvent(n), FocusState(n + 1))
  {
    LoadedOne();
    DebtIsPaidWhileDown();
  }

  lemma FocusStepsAfter(n: nat)
    requires 5 <= n < 8
    ensures Step(FocusState(n), FocusEvent(n), FocusState(n + 1))
  {
    WritesGoUnnoticed();
  }

  lemma FocusWhileDownIsRun()
    ensures IsRun(FocusWhileDown().0, FocusWhileDown().1)
  {
    forall n | 0 <= n < 8 ensures Step(FocusState(n), FocusEvent(n), FocusState(n + 1)) {
      if n < 5 {
        FocusStepsBefore(n);
      } else {
        FocusStepsAfter(n);
      }
    }
  }

  /** It is a run of the page, and it ends connected, owing nothing, with message 2 missing. */
  lemma FocusWhileDownLosesAMessage()
    ensures var (states, events) := FocusWhileDown();
            && IsRun(states, events) && states[0] == Loaded([Line(1)], 1) && Lapse(states[5], events[5])
            && states[8].up && !states[8].view.needsBackfill && !NoHole(Ids(states[8].view.messages), states[8].rows)
  {
    FocusWhileDownIsRun();
    WritesGoUnnoticed();
    OvertakenHasHole();
    assert FocusWhileDown().0[8] == Overtaken();
  }
}
