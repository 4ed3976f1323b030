/**
 The cursors of an open channel page: which chat message is known to be followed, where a catch-up
 starts, and whether one is owed. The page's React state and its refs are taken to be in step.
 */
module ChatClient {
  import opened Common
  import opened Filters
  import opened Sorting
  import opened ChatLog
  import opened MergeMessages

  /** `fetching` is the start cursor of the catch-up in flight. */
  datatype View = View(
    messages: seq<Message>,
    lastSynced: Option<int>,
    resumeCursor: Option<int>,
    needsBackfill: bool,
    fetching: Option<int>)

  datatype Event =
    | Opened(list: seq<Message>)
    | Received(message: Message)
    | Deleted(id: int)
    | Cleared
    | Captured
    | FetchStarted(force: bool)
    | FetchFailed
    | FetchDone(incoming: seq<Message>)

  /** The latest chat id of a list, as a value. */
  function Latest(ms: seq<Message>): Option<int> {
    if ms == [] then None
    else
      var (latest, m) := (Latest(ms[..|ms| - 1]), ms[|ms| - 1]);
      if m.Chat? && (latest.None? || m.id > latest.value) then Some(m.id) else latest
  }

  lemma {:induction false} LatestIs(ms: seq<Message>)
    ensures IsLatest(ms, Latest(ms))
  {
    if ms != [] {
      LatestIs(ms[..|ms| - 1]);
      IdsAppend(ms[..|ms| - 1], ms[|ms| - 1]);
      assert ms == ms[..|ms| - 1] + [ms[|ms| - 1]];
    } else {
      assert Ids(ms) == {};
    }
  }

  lemma LatestUnique(ms: seq<Message>, a: Option<int>, b: Option<int>)
    requires IsLatest(ms, a) && IsLatest(ms, b)
    ensures a == b
  {
  }

  /** The cursor moves forward only; while a catch-up is owed the place it starts from stays put. */
  function Advance(v: View, id: Option<int>): View {
    var next := MaxId(v.lastSynced, id);
    if next.None? then v
    else v.(lastSynced := next, resumeCursor := if v.needsBackfill then v.resumeCursor else next)
  }

  function Capture(v: View): View {
    var cursor := if v.lastSynced.Some? then v.lastSynced else Latest(v.messages);
    if cursor.None? then v else v.(resumeCursor := cursor, needsBackfill := true)
  }

  predicate Shows(ms: seq<Message>, id: int) {
    exists i :: 0 <= i < |ms| && Is(ms[i], id)
  }

  function Receive(v: View, m: Message): View {
    if m.Chat? && Shows(v.messages, m.id) then v
    else
      var v' := if m.Chat? && !v.needsBackfill then Advance(v, Some(m.id)) else v;
      v'.(messages := Newest(v.messages + [m], KEEP))
  }

  function Without(ms: seq<Message>, id: int): seq<Message> {
    if ms == [] then []
    else Without(ms[..|ms| - 1], id) + if Is(ms[|ms| - 1], id) then [] else [ms[|ms| - 1]]
  }

  function StartCursor(v: View): Option<int> {
    if v.resumeCursor.Some? then v.resumeCursor
    else if v.lastSynced.Some? then v.lastSynced
    else Latest(v.messages)
  }

  function StartFetch(v: View, force: bool): View {
    if StartCursor(v).None? || v.fetching.Some? || (!v.needsBackfill && !force) then v
    else v.(fetching := StartCursor(v))
  }

  /** A finished catch-up: the fetched rows are merged and the cursor covers them and all that is shown. */
  ghost predicate Finish(v: View, incoming: seq<Message>, v': View) {
    var w := Advance(v.(needsBackfill := false), MaxId(Latest(v.messages), Latest(incoming)));
    && v' == w.(messages := v'.messages, fetching := None)
    && if incoming == [] then v'.messages == v.messages else IsMerge(v.messages, incoming, v'.messages)
  }

  ghost predicate Step(v: View, e: Event, v': View) {
    match e
    case Opened(list) => v' == View(list, Latest(list), Latest(list), false, v.fetching)
    case Received(m) => v' == Receive(v, m)
    case Deleted(id) => v' == v.(messages := Without(v.messages, id))
    case Cleared => v' == View([], None, None, false, v.fetching)
    case Captured => v' == Capture(v)
    case FetchStarted(force) => v' == StartFetch(v, force)
    case FetchFailed => v' == v.(fetching := None)
    case FetchDone(incoming) => v.fetching.Some? && Finish(v, incoming, v')
  }

  /** Every shown chat message is at or below the cursor. */
  ghost predicate AtMost(ids: set<int>, cursor: Option<int>) {
    match cursor
    case None => ids == {}
    case Some(c) => forall id :: id in ids ==> id <= c
  }

  /**
   In every reachable state a catch-up would start exactly where the cursor stands, none is owed before
   there is a cursor, and unless one is owed the cursor covers everything shown.
   */
  ghost predicate CursorInv(v: View) {
    && v.resumeCursor == v.lastSynced
    && (v.lastSynced.None? ==> Ids(v.messages) == {} && !v.needsBackfill)
    && (!v.needsBackfill ==> AtMost(Ids(v.messages), v.lastSynced))
  }

  lemma LatestAtMost(ms: seq<Message>)
    ensures AtMost(Ids(ms), Latest(ms))
  {
    LatestIs(ms);
  }

  lemma MaxAtMost(ids: set<int>, a: Option<int>, b: Option<int>)
    requires AtMost(ids, a) || AtMost(ids, b)
    ensures AtMost(ids, MaxId(a, b))
  {
  }

  lemma NewestIds(ms: seq<Message>, n: nat)
    ensures Ids(Newest(ms, n)) <= Ids(ms)
  {
  }

  lemma {:induction false} WithoutIds(ms: seq<Message>, id: int)
    ensures Ids(Without(ms, id)) == Ids(ms) - {id}
  {
    if ms == [] {
      assert Ids(ms) == {};
    } else {
      var (init, m) := (ms[..|ms| - 1], ms[|ms| - 1]);
      WithoutIds(init, id);
      IdsAppend(init, m);
      IdsAppend(Without(init, id), m);
      assert ms == init + [m];
      assert Without(init, id) + [] == Without(init, id);
    }
  }

  lemma ReceiveKeepsInv(v: View, m: Message)
    requires CursorInv(v)
    ensures CursorInv(Receive(v, m))
  {
    var grown := v.messages + [m];
    NewestIds(grown, KEEP);
    IdsAppend(v.messages, m);
    if m.Chat? && !v.needsBackfill {
      MaxAtMost(Ids(v.messages), v.lastSynced, Some(m.id));
    }
  }

  lemma FinishKeepsInv(v: View, incoming: seq<Message>, v': View)
    requires CursorInv(v) && Finish(v, incoming, v')
    ensures CursorInv(v')
  {
    var (a, b) := (Latest(v.messages), Latest(incoming));
    LatestAtMost(v.messages);
    LatestAtMost(incoming);
    MaxAtMost(Ids(v.messages), a, b);
    MaxAtMost(Ids(incoming), a, b);
    var all := Ids(v.messages) + Ids(incoming);
    assert AtMost(all, MaxId(a, b));
    MaxAtMost(all, v.lastSynced, MaxId(a, b));
    assert Ids(v'.messages) <= all;
  }

  lemma StepKeepsCursorInv(v: View, e: Event, v': View)
    requires CursorInv(v) && Step(v, e, v')
    ensures CursorInv(v')
  {
    match e
    case Opened(list) => LatestAtMost(list);
    case Received(m) => ReceiveKeepsInv(v, m);
    case Deleted(id) => WithoutIds(v.messages, id);
    case Cleared => assert Ids([]) == {};
    case Captured => LatestIs(v.messages);
    case FetchStarted(_) =>
    case FetchFailed =>
    case FetchDone(incoming) => FinishKeepsInv(v, incoming, v');
  }

  ghost predicate IsRun(views: seq<View>, events: seq<Event>) {
    |views| == |events| + 1 && forall i :: 0 <= i < |events| ==> Step(views[i], events[i], views[i + 1])
  }

  /** The cursor invariant holds throughout every run of the page. */
  lemma {:induction false} CursorsStayInStep(views: seq<View>, events: seq<Event>, n: nat)
    requires IsRun(views, events) && CursorInv(views[0]) && n < |views|
    ensures CursorInv(views[n])
  {
    if n > 0 {
      CursorsStayInStep(views, events, n - 1);
      StepKeepsCursorInv(views[n - 1], events[n - 1], views[n]);
    }
  }

  /**
   A capture made while a catch-up is in flight is forgotten when that one finishes: the next opening
   fetches nothing.
   */
  lemma CaptureInFlightIsForgotten(v: View, captured: View, incoming: seq<Message>, finished: View)
    requires v.fetching.Some? && Step(v, Captured, captured) && Step(captured, FetchDone(incoming), finished)
    ensures !finished.needsBackfill && Step(finished, FetchStarted(false), finished)
  {
  }

  // ---- what single events do ---------------------------------------------------------------------

  function IsNot(id: int): Message -> bool {
    (m: Message) => !Is(m, id)
  }

  lemma {:induction false} WithoutIsSelect(ms: seq<Message>, id: int)
    ensures Without(ms, id) == Select(ms, IsNot(id))
  {
    if ms != [] {
      WithoutIsSelect(ms[..|ms| - 1], id);
    }
  }

  /** A deletion takes out every entry of the deleted message and keeps all others in their order, each once. */
  lemma WithoutSelects(ms: seq<Message>, id: int) returns (at: seq<nat>)
    ensures Selects(ms, IsNot(id), Without(ms, id), at)
  {
    at := SelectSelects(ms, IsNot(id));
    WithoutIsSelect(ms, id);
  }

  /** A catch-up starts exactly when none is in flight, one is owed or forced, and there is somewhere to start. */
  lemma StartsWhenOwedOrForced(v: View, force: bool)
    requires CursorInv(v)
    ensures StartFetch(v, force) ==
              v.(fetching := if v.fetching.None? && (v.needsBackfill || force) then v.lastSynced else v.fetching)
  {
    LatestIs(v.messages);
  }

  /** A capture with a cursor owes a catch-up from there; without one it changes nothing. */
  lemma CaptureOwesFromCursor(v: View)
    requires CursorInv(v)
    ensures Capture(v) == v.(needsBackfill := v.needsBackfill || v.lastSynced.Some?)
  {
    LatestIs(v.messages);
  }

  /** Unless a catch-up is owed the cursor is moved by every new chat message, and by nothing older. */
  lemma ReceivedMovesCursor(v: View, m: Message)
    requires CursorInv(v)
    ensures var after := Receive(v, m);
            && after.needsBackfill == v.needsBackfill && after.fetching == v.fetching
            && after.resumeCursor == after.lastSynced
            && after.lastSynced ==
                 (if m.Other? || v.needsBackfill || (v.lastSynced.Some? && m.id <= v.lastSynced.value) then v.lastSynced
                  else Some(m.id))
  {
    if m.Chat? && Shows(v.messages, m.id) {
      var i :| 0 <= i < |v.messages| && Is(v.messages[i], m.id);
      HasId(v.messages, i);
    }
  }

  /** A known message changes nothing; any other is appended, and of more than 200 entries the first goes. */
  lemma ReceivedIsAppended(v: View, m: Message)
    requires |v.messages| <= 200
    ensures Receive(v, m).messages ==
              if m.Chat? && m.id in Ids(v.messages) then v.messages
              else if |v.messages| == 200 then v.messages[1..] + [m]
              else v.messages + [m]
  {
    if m.Chat? && m.id in Ids(v.messages) {
      var q := Position(v.messages, m.id);
    } else if m.Chat? && Shows(v.messages, m.id) {
      var i :| 0 <= i < |v.messages| && Is(v.messages[i], m.id);
      HasId(v.messages, i);
    }
  }

  /** Afterwards nothing is owed or in flight; the cursor is the largest of what it was, what is shown and fetched. */
  lemma FinishSettlesCursor(v: View, incoming: seq<Message>, v': View)
    requires Finish(v, incoming, v')
    ensures !v'.needsBackfill && v'.fetching.None?
    ensures v'.lastSynced == MaxId(v.lastSynced, MaxId(Latest(v.messages), Latest(incoming)))
    ensures v'.lastSynced.Some? ==> v'.resumeCursor == v'.lastSynced
  {
  }

  // ---- a whole absence ---------------------------------------------------------------------------

  predicate AscendingChats(ms: seq<Message>) {
    forall i, j :: 0 <= i < j < |ms| && ms[i].Chat? && ms[j].Chat? ==> Key()(ms[i]) < Key()(ms[j])
  }

  /** No row up to `upTo` is missing from the shown ids between two of them. */
  ghost predicate Covers(ids: set<int>, rows: seq<Message>, upTo: int) {
    forall low, m :: low in ids && m in rows && low <= Key()(m) <= upTo ==> Key()(m) in ids
  }

  /** A catch-up from `cursor` is owed, and nothing shown below the cursor is missing. */
  ghost predicate Away(v: View, cursor: int, rows: seq<Message>) {
    && CursorInv(v) && v.needsBackfill && v.lastSynced == Some(cursor)
    && (v.fetching.Some? ==> v.fetching == Some(cursor))
    && AscendingChats(v.messages) && Covers(Ids(v.messages), rows, cursor)
  }

  /** A chat message is shown already, or is newer than everything that is. */
  ghost predicate ArrivesInOrder(v: View, m: Message) {
    m.Chat? && !Shows(v.messages, m.id) ==>
      (v.lastSynced.Some? ==> v.lastSynced.value < m.id) && forall id :: id in Ids(v.messages) ==> id < m.id
  }

  /** The deleted message is none of the lasting ones. */
  predicate SparesRows(id: int, rows: seq<Message>) {
    forall r :: r in rows ==> Key()(r) != id
  }

  /**
   What happens before the catch-up is done: messages arrive in id order, with whatever gaps; messages that do
   not last are deleted; the page is hidden or the connection lost again; fetches start and fail.
   */
  ghost predicate AwayEvent(v: View, e: Event, rows: seq<Message>) {
    match e
    case Received(m) => ArrivesInOrder(v, m)
    case Deleted(id) => SparesRows(id, rows)
    case Captured => true
    case FetchStarted(_) => true
    case FetchFailed => true
    case _ => false
  }

  lemma AppendAscends(ms: seq<Message>, m: Message)
    requires AscendingChats(ms) && (m.Chat? ==> forall id :: id in Ids(ms) ==> id < m.id)
    ensures AscendingChats(ms + [m])
  {
    forall i | 0 <= i < |ms| && ms[i].Chat? ensures Key()(ms[i]) in Ids(ms) {
      HasId(ms, i);
    }
  }

  lemma NewestAscends(ms: seq<Message>, n: nat)
    requires AscendingChats(ms)
    ensures AscendingChats(Newest(ms, n))
  {
    var kept := Newest(ms, n);
    forall i, j | 0 <= i < j < |kept| && kept[i].Chat? && kept[j].Chat? ensures Key()(kept[i]) < Key()(kept[j]) {
      KeptAt(ms, n, i);
      KeptAt(ms, n, j);
    }
  }

  lemma ChatOrder(ms: seq<Message>, p: nat, q: nat)
    requires AscendingChats(ms) && p < |ms| && q < |ms| && ms[p].Chat? && ms[q].Chat?
    requires Key()(ms[p]) <= Key()(ms[q])
    ensures p <= q
  {
  }

  /** Cutting an ordered list keeps every id that is not below a kept one. */
  lemma CutKeepsAbove(ms: seq<Message>, n: nat, i: int, j: int)
    requires AscendingChats(ms) && i in Ids(Newest(ms, n)) && j in Ids(ms) && i <= j
    ensures j in Ids(Newest(ms, n))
  {
    var kept := Newest(ms, n);
    var p := Position(kept, i);
    var q := Position(ms, j);
    KeptAt(ms, n, p);
    ChatOrder(ms, |ms| - |kept| + p, q);
    StillKept(ms, n, q);
  }

  lemma CutCovers(ms: seq<Message>, m: Message, n: nat, rows: seq<Message>, upTo: int)
    requires AscendingChats(ms + [m]) && Covers(Ids(ms), rows, upTo) && (m.Chat? ==> upTo < m.id)
    ensures Covers(Ids(Newest(ms + [m], n)), rows, upTo)
  {
    var kept := Ids(Newest(ms + [m], n));
    NewestIds(ms + [m], n);
    IdsAppend(ms, m);
    forall low, r | low in kept && r in rows && low <= Key()(r) <= upTo ensures Key()(r) in kept {
      assert low in Ids(ms);
      CutKeepsAbove(ms + [m], n, low, Key()(r));
    }
  }

  lemma ReceiveCovers(v: View, m: Message, rows: seq<Message>, upTo: int)
    requires AscendingChats(v.messages) && Covers(Ids(v.messages), rows, upTo) && ArrivesInOrder(v, m)
    requires m.Chat? && !Shows(v.messages, m.id) ==> upTo < m.id
    ensures AscendingChats(Receive(v, m).messages) && Covers(Ids(Receive(v, m).messages), rows, upTo)
  {
    if !(m.Chat? && Shows(v.messages, m.id)) {
      AppendAscends(v.messages, m);
      NewestAscends(v.messages + [m], KEEP);
      CutCovers(v.messages, m, KEEP, rows, upTo);
    }
  }

  lemma {:induction false} WithoutAscends(ms: seq<Message>, id: int)
    requires AscendingChats(ms)
    ensures AscendingChats(Without(ms, id))
  {
    if ms != [] {
      var (init, m) := (ms[..|ms| - 1], ms[|ms| - 1]);
      assert forall i :: 0 <= i < |init| ==> init[i] == ms[i];
      WithoutAscends(init, id);
      WithoutIds(init, id);
      if !Is(m, id) {
        forall j | j in Ids(init) && m.Chat? ensures j < m.id {
          var q := Position(init, j);
          assert Key()(ms[q]) < Key()(ms[|ms| - 1]);
        }
        AppendAscends(Without(init, id), m);
      } else {
        assert Without(init, id) + [] == Without(init, id);
      }
    }
  }

  lemma DeleteCovers(ms: seq<Message>, id: int, rows: seq<Message>, upTo: int)
    requires Covers(Ids(ms), rows, upTo) && SparesRows(id, rows)
    ensures Covers(Ids(Without(ms, id)), rows, upTo)
  {
    WithoutIds(ms, id);
  }

  lemma AwayStep(v: View, e: Event, v': View, cursor: int, rows: seq<Message>)
    requires Away(v, cursor, rows) && AwayEvent(v, e, rows) && Step(v, e, v')
    ensures Away(v', cursor, rows)
  {
    StepKeepsCursorInv(v, e, v');
    match e
    case Received(m) => ReceiveCovers(v, m, rows, cursor);
    case Deleted(id) =>
      WithoutAscends(v.messages, id);
      DeleteCovers(v.messages, id, rows, cursor);
    case _ =>
  }

  lemma {:induction false} AwayRun(views: seq<View>, events: seq<Event>, cursor: int, rows: seq<Message>, n: nat)
    requires IsRun(views, events) && n <= |events| && Away(views[0], cursor, rows)
    requires forall i :: 0 <= i < n ==> AwayEvent(views[i], events[i], rows)
    ensures Away(views[n], cursor, rows)
  {
    if n > 0 {
      AwayRun(views, events, cursor, rows, n - 1);
      AwayStep(views[n - 1], events[n - 1], views[n], cursor, rows);
    }
  }

  /** Merging what lies between the cursor and `upTo` closes the gap, wherever it came from. */
  lemma MergeCloses(current: seq<Message>, incoming: seq<Message>, merged: seq<Message>,
                    rows: seq<Message>, cursor: int, upTo: int)
    requires IsMerge(current, incoming, merged) && Covers(Ids(current), rows, cursor)
    requires forall id :: id in Ids(incoming) ==> cursor < id
    requires forall r :: r in rows && cursor < Key()(r) <= upTo ==> Key()(r) in Ids(current) + Ids(incoming)
    ensures Covers(Ids(merged), rows, upTo)
  {
    var all := Ids(current) + Ids(incoming);
    forall low, r | low in Ids(merged) && r in rows && low <= Key()(r) <= upTo ensures Key()(r) in Ids(merged) {
      assert low in all;
      assert Key()(r) in all;
    }
  }

  /** Every row lasts through the paging: the last page's table holds it and no page found it deleted. */
  ghost predicate AllLast(tables: seq<seq<Message>>, pages: nat, rows: seq<Message>)
    requires tables != [] && pages > 0
  {
    forall r :: r in rows ==> r.Chat? && Lasts(tables, pages, r) && r in TableAt(tables, pages - 1)
  }

  /** No row of the table from the first shown one on is missing. */
  ghost predicate NoHole(shown: set<int>, rows: seq<Message>) {
    forall upTo :: Covers(shown, rows, upTo)
  }

  /**
   A whole absence. From the moment the cursor is captured, however often the page is hidden again, fetches
   fail, newer messages arrive or others are deleted, the first catch-up that succeeds has fetched from that
   cursor, and after it the shown chat messages have no hole among the rows that lasted through the paging,
   all of which the cursor then covers.
   */
  lemma CatchUpLeavesNoHole(views: seq<View>, events: seq<Event>, cursor: int, rows: seq<Message>,
                            tables: seq<seq<Message>>, pages: nat, incoming: seq<Message>)
    requires Tables(tables) && Fetched(tables, pages, cursor, incoming) && AllLast(tables, pages, rows)
    requires IsRun(views, events) && events != [] && Away(views[0], cursor, rows)
    requires forall i :: 0 <= i < |events| - 1 ==> AwayEvent(views[i], events[i], rows)
    requires events[|events| - 1] == FetchDone(incoming)
    ensures views[|events| - 1].fetching == Some(cursor)
    ensures NoHole(Ids(views[|events|].messages), rows)
    ensures !views[|events|].needsBackfill && views[|events|].lastSynced.Some?
    ensures forall r :: r in rows ==> Key()(r) <= views[|events|].lastSynced.value
  {
    var n := |events|;
    AwayRun(views, events, cursor, rows, n - 1);
    assert Step(views[n - 1], events[n - 1], views[n]);
    LastingIsFetched(tables, pages, cursor, incoming, rows);
    FinishCloses(views[n - 1], cursor, rows, incoming, views[n]);
  }

  lemma LastingIsFetched(tables: seq<seq<Message>>, pages: nat, cursor: int, incoming: seq<Message>, rows: seq<Message>)
    requires Tables(tables) && Fetched(tables, pages, cursor, incoming) && AllLast(tables, pages, rows)
    ensures forall r :: r in rows && cursor < Key()(r) ==> Key()(r) in Ids(incoming)
    ensures forall id :: id in Ids(incoming) ==> cursor < id
  {
    forall r | r in rows && cursor < Key()(r) ensures Key()(r) in Ids(incoming) {
      assert r in incoming;
    }
    forall id | id in Ids(incoming) ensures cursor < id {
      var q := Position(incoming, id);
      assert incoming[q] in incoming;
    }
  }

  lemma FinishCloses(v: View, cursor: int, rows: seq<Message>, incoming: seq<Message>, v': View)
    requires Away(v, cursor, rows) && Finish(v, incoming, v')
    requires forall r :: r in rows && cursor < Key()(r) ==> Key()(r) in Ids(incoming)
    requires forall id :: id in Ids(incoming) ==> cursor < id
    ensures NoHole(Ids(v'.messages), rows)
    ensures !v'.needsBackfill && v'.lastSynced.Some?
    ensures forall r :: r in rows ==> Key()(r) <= v'.lastSynced.value
  {
    LatestAtMost(incoming);
    MaxAtMost(Ids(incoming), Latest(v.messages), Latest(incoming));
    if incoming == [] {
      assert Ids(incoming) == {};
    } else {
      forall upTo ensures Covers(Ids(v'.messages), rows, upTo) {
        MergeCloses(v.messages, incoming, v'.messages, rows, cursor, upTo);
      }
    }
  }

  // ---- the page ----------------------------------------------------------------------------------

  class ChatPage {
    var messages: seq<Message>
    var lastSynced: Option<int>
    var resumeCursor: Option<int>
    var needsBackfill: bool
    var fetching: Option<int>

    constructor ()
      ensures Now() == View([], None, None, false, None)
    {
      messages, lastSynced, resumeCursor, needsBackfill, fetching := [], None, None, false, None;
    }

    function Now(): View
      reads this
    {
      View(messages, lastSynced, resumeCursor, needsBackfill, fetching)
    }

    method Open(list: seq<Message>)
      modifies this
      ensures Step(old(Now()), Opened(list), Now())
    {
      var initialCursor := LatestOf(list);
      messages := list;
      lastSynced, resumeCursor, needsBackfill := initialCursor, initialCursor, false;
    }

    method Clear()
      modifies this
      ensures Step(old(Now()), Cleared, Now())
    {
      messages, lastSynced, resumeCursor, needsBackfill := [], None, None, false;
    }

    method Delete(id: int)
      modifies `messages
      ensures Step(old(Now()), Deleted(id), Now())
    {
      var (current, kept) := (messages, []);
      for i := 0 to |current|
        invariant messages == current && kept == Without(current[..i], id)
      {
        assert current[..i + 1][..i] == current[..i];
        if !Is(current[i], id) {
          kept := kept + [current[i]];
        }
      }
      assert current[..|current|] == current;
      messages := kept;
    }

    method AdvanceSyncedCursor(messageId: Option<int>)
      modifies `lastSynced, `resumeCursor
      ensures Now() == Advance(old(Now()), messageId)
      ensures lastSynced == MaxId(old(lastSynced), messageId)
      ensures resumeCursor == if needsBackfill || lastSynced.None? then old(resumeCursor) else lastSynced
    {
      var next := MaxId(lastSynced, messageId);
      if next.None? {
        return;
      }
      lastSynced := next;
      if !needsBackfill {
        resumeCursor := next;
      }
    }

    method OnMessage(message: Message)
      modifies this
      ensures Step(old(Now()), Received(message), Now())
    {
      if message.Chat? && Shows(messages, message.id) {
        return;
      }
      if message.Chat? && !needsBackfill {
        AdvanceSyncedCursor(Some(message.id));
      }
      messages := Newest(messages + [message], KEEP);
    }

    method CaptureResumeCursor()
      modifies `resumeCursor, `needsBackfill
      ensures Step(old(Now()), Captured, Now())
      ensures lastSynced.Some? ==> needsBackfill && resumeCursor == lastSynced
    {
      var cursor := lastSynced;
      if cursor.None? {
        cursor := LatestOf(messages);
      }
      if cursor.None? {
        return;
      }
      resumeCursor, needsBackfill := cursor, true;
    }

    /** The head of backfillMessages; `started` is the cursor the paging starts from, if it starts. */
    method BeginBackfill(force: bool) returns (started: Option<int>)
      modifies `fetching
      ensures Step(old(Now()), FetchStarted(force), Now())
      ensures old(fetching).Some? || (!needsBackfill && !force) ==> started.None?
      ensures old(fetching).None? && (needsBackfill || force) ==>
                && (resumeCursor.Some? ==> started == resumeCursor)
                && (resumeCursor.None? && lastSynced.Some? ==> started == lastSynced)
                && (resumeCursor.None? && lastSynced.None? ==> IsLatest(messages, started))
      ensures started.Some? <==> fetching != old(fetching)
      ensures started.Some? ==> started == fetching
    {
      var latest := LatestOf(messages);
      var startCursor := if resumeCursor.Some? then resumeCursor else if lastSynced.Some? then lastSynced else latest;
      if startCursor.None? || fetching.Some? || (!needsBackfill && !force) {
        return None;
      }
      fetching := startCursor;
      return startCursor;
    }

    method FailBackfill()
      modifies `fetching
      ensures Step(old(Now()), FetchFailed, Now())
    {
      fetching := None;
    }

    /** The tail of backfillMessages, once the paging has collected `incoming`. */
    method FinishBackfill(incoming: seq<Message>)
      requires fetching.Some?
      modifies this
      ensures Step(old(Now()), FetchDone(incoming), Now())
    {
      var fetchedLatest := LatestOf(incoming);
      var visibleLatest := LatestOf(messages);
      if |incoming| > 0 {
        messages := Merge(messages, incoming);
      }
      needsBackfill := false;
      AdvanceSyncedCursor(MaxId(visibleLatest, fetchedLatest));
      fetching := None;
    }
  }

  method LatestOf(list: seq<Message>) returns (latest: Option<int>)
    ensures latest == Latest(list) && IsLatest(list, latest)
  {
    latest := LatestChatMessageId(list);
    LatestIs(list);
    LatestUnique(list, latest, Latest(list));
  }
}
