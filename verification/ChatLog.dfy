/**
 The client's message list: paged catch-up from a cursor over a growing table, duplicate-free merging,
 and the cursors that decide where a catch-up starts.
 */
module ChatLog {
  import opened Common
  import opened Sorting

  /** Server messages in the list. Chat ids are the decimal int64 the server issues; others have none. */
  datatype Message = Chat(id: int, body: string) | Other(body: string)

  const PAGE_SIZE: nat := 200
  const KEEP: nat := 200

  function Key(): Message -> int {
    (m: Message) => if m.Chat? then m.id else 0
  }

  predicate AllChat(ms: seq<Message>) {
    forall m :: m in ms ==> m.Chat?
  }

  ghost function Ids(ms: seq<Message>): set<int> {
    set m | m in ms && m.Chat? :: m.id
  }

  // ---- the largest id of a list ----------------------------------------------------------------

  /** The larger of two ids, of which either may be missing. */
  function MaxId(a: Option<int>, b: Option<int>): (max: Option<int>)
    ensures max == a || max == b
    ensures a.Some? ==> max.Some? && a.value <= max.value
    ensures b.Some? ==> max.Some? && b.value <= max.value
  {
    if a.None? then b else if b.None? then a else if a.value >= b.value then a else b
  }

  /** Which id is the latest of a list: one of its chat ids, and none is larger. */
  ghost predicate IsLatest(ms: seq<Message>, latest: Option<int>) {
    match latest
    case None => Ids(ms) == {}
    case Some(id) => id in Ids(ms) && forall i :: i in Ids(ms) ==> i <= id
  }

  method LatestChatMessageId(list: seq<Message>) returns (latest: Option<int>)
    ensures IsLatest(list, latest)
  {
    latest := None;
    for i := 0 to |list|
      invariant IsLatest(list[..i], latest)
    {
      var m := list[i];
      assert list[..i + 1] == list[..i] + [m];
      assert Ids(list[..i + 1]) == Ids(list[..i]) + if m.Chat? then {m.id} else {};
      if m.Chat? && (latest.None? || m.id > latest.value) {
        latest := Some(m.id);
      }
    }
    assert list[..|list|] == list;
  }

  // ---- paged catch-up --------------------------------------------------------------------------

  /** The rows of one channel in id order. */
  predicate Table(rows: seq<Message>) {
    AllChat(rows) && StrictlyAscending(rows, Key())
  }

  /** Position of the first row with an id above `after`. */
  function FirstAbove(rows: seq<Message>, after: int): (k: nat)
    ensures k <= |rows|
  {
    if rows == [] || Key()(rows[0]) > after then 0 else 1 + FirstAbove(rows[1..], after)
  }

  function RowsAbove(rows: seq<Message>, after: int): seq<Message> {
    rows[FirstAbove(rows, after)..]
  }

  /** ListChatMessagesAfterID: ids above `after`, ascending, at most `limit` of them. */
  function ListAfter(rows: seq<Message>, after: int, limit: nat): seq<Message> {
    var above := RowsAbove(rows, after);
    if |above| <= limit then above else above[..limit]
  }

  lemma {:induction false} FirstAboveSplits(rows: seq<Message>, after: int)
    requires Table(rows)
    ensures var k := FirstAbove(rows, after);
            && (forall i :: 0 <= i < k ==> rows[i].id <= after)
            && (forall i :: k <= i < |rows| ==> rows[i].id > after)
  {
    assert forall i :: 0 <= i < |rows| ==> rows[i] in rows;
    if rows != [] && rows[0].id <= after {
      TableTail(rows);
      FirstAboveSplits(rows[1..], after);
      var k := FirstAbove(rows[1..], after);
      assert forall i :: 0 <= i < |rows[1..]| ==> rows[1..][i] == rows[i + 1];
      forall i | 0 <= i < k + 1 ensures rows[i].id <= after {
        assert i > 0 ==> rows[i] == rows[1..][i - 1];
      }
      forall i | k + 1 <= i < |rows| ensures rows[i].id > after {
        assert rows[i] == rows[1..][i - 1];
      }
    } else if rows != [] {
      forall i | 0 <= i < |rows| ensures rows[i].id > after {
        assert i > 0 ==> Key()(rows[0]) < Key()(rows[i]);
      }
    }
  }

  lemma TableTail(rows: seq<Message>)
    requires Table(rows) && rows != []
    ensures Table(rows[1..])
  {
    assert forall i :: 0 <= i < |rows[1..]| ==> rows[1..][i] == rows[i + 1];
  }

  lemma PageAt(rows: seq<Message>, after: int, limit: nat, i: nat)
    requires i < |ListAfter(rows, after, limit)|
    ensures FirstAbove(rows, after) + i < |rows|
    ensures ListAfter(rows, after, limit)[i] == rows[FirstAbove(rows, after) + i]
  {
  }

  lemma PageHolds(rows: seq<Message>, after: int, limit: nat, m: Message)
    requires Table(rows) && m in ListAfter(rows, after, limit)
    ensures m in rows && Key()(m) > after
  {
    var page := ListAfter(rows, after, limit);
    var i :| 0 <= i < |page| && page[i] == m;
    PageAt(rows, after, limit, i);
    FirstAboveSplits(rows, after);
    assert m in rows;
  }

  /** A row left out of a page although it is above the cursor comes after a full page of smaller ids. */
  lemma PageLeavesOut(rows: seq<Message>, after: int, limit: nat, m: Message)
    requires Table(rows) && limit > 0 && m in rows && Key()(m) > after
    ensures var page := ListAfter(rows, after, limit);
            m in page || (|page| == limit && Key()(page[limit - 1]) < Key()(m))
  {
    var (k, page) := (FirstAbove(rows, after), ListAfter(rows, after, limit));
    FirstAboveSplits(rows, after);
    var j :| 0 <= j < |rows| && rows[j] == m;
    assert j >= k;
    if j < k + |page| {
      PageAt(rows, after, limit, j - k);
    } else {
      PageAt(rows, after, limit, limit - 1);
      assert Key()(rows[k + limit - 1]) < Key()(rows[j]);
    }
  }

  /** The query selects rows above the cursor only, in order, and leaves one out only for a full page of smaller ids. */
  lemma ListAfterSelects(rows: seq<Message>, after: int, limit: nat)
    requires Table(rows) && limit > 0
    ensures var page := ListAfter(rows, after, limit);
            && |page| <= limit && page <= RowsAbove(rows, after)
            && (forall m :: m in page ==> m in rows && Key()(m) > after)
            && (forall m :: m in rows && Key()(m) > after ==>
                  m in page || (|page| == limit && Key()(page[limit - 1]) < Key()(m)))
  {
    var page := ListAfter(rows, after, limit);
    forall m | m in page ensures m in rows && Key()(m) > after {
      PageHolds(rows, after, limit, m);
    }
    forall m | m in rows && Key()(m) > after
      ensures m in page || (|page| == limit && Key()(page[limit - 1]) < Key()(m))
    {
      PageLeavesOut(rows, after, limit, m);
    }
  }

  // ---- the loop over pages -----------------------------------------------------------------------

  /** The table as each page finds it; after finitely many changes it stays the same. */
  predicate Tables(tables: seq<seq<Message>>) {
    tables != [] && forall n :: 0 <= n < |tables| ==> Table(tables[n])
  }

  function TableAt(tables: seq<seq<Message>>, page: nat): seq<Message>
    requires tables != []
  {
    tables[if page < |tables| then page else |tables| - 1]
  }

  /** A table holds the row, or was read before the row was written: rows are written with growing ids. */
  predicate PresentOrLater(rows: seq<Message>, m: Message) {
    m in rows || forall r :: r in rows ==> Key()(r) < Key()(m)
  }

  /** No page that was read found the row deleted. */
  ghost predicate Lasts(tables: seq<seq<Message>>, pages: nat, m: Message)
    requires tables != []
  {
    forall n: nat :: n < pages ==> PresentOrLater(TableAt(tables, n), m)
  }

  ghost predicate WasRead(tables: seq<seq<Message>>, pages: nat, m: Message)
    requires tables != []
  {
    exists n: nat :: n < pages && m in TableAt(tables, n)
  }

  /** After `pages` pages everything that lasts, from above `start` up to `cursor`, has been collected. */
  ghost predicate Gathered(tables: seq<seq<Message>>, pages: nat, start: int, cursor: int, incoming: seq<Message>)
    requires tables != []
  {
    && Table(incoming) && start <= cursor
    && (forall m :: m in incoming ==> start < Key()(m) <= cursor && WasRead(tables, pages, m))
    && (forall m :: Lasts(tables, pages, m) && m.Chat? && start < Key()(m) <= cursor ==> m in incoming)
  }

  /** What the whole catch-up has collected: rows it read above the start, among them all that last to its end. */
  ghost predicate Fetched(tables: seq<seq<Message>>, pages: nat, start: int, incoming: seq<Message>)
    requires tables != []
  {
    && pages > 0 && Table(incoming)
    && (forall m :: m in incoming ==> start < Key()(m) && WasRead(tables, pages, m))
    && (forall m :: Lasts(tables, pages, m) && m in TableAt(tables, pages - 1) && start < Key()(m) ==> m in incoming)
  }

  lemma SliceIsTable(rows: seq<Message>, i: nat, j: nat)
    requires Table(rows) && i <= j <= |rows|
    ensures Table(rows[i..j])
  {
    assert forall k :: 0 <= k < j - i ==> rows[i..j][k] == rows[i + k];
  }

  /** The latest id of an ordered page is the id of its last row. */
  lemma LastIsLatest(page: seq<Message>, latest: Option<int>)
    requires Table(page) && page != [] && IsLatest(page, latest)
    ensures latest == Some(Key()(page[|page| - 1])) && forall m :: m in page ==> Key()(m) <= latest.value
  {
    var last := page[|page| - 1];
    assert last in page;
    assert last.id in Ids(page);
    var m :| m in page && m.Chat? && m.id == latest.value;
    var i :| 0 <= i < |page| && page[i] == m;
    AscendingOrder(page, Key(), |page| - 1, i);
    assert forall r :: r in page ==> Key()(r) in Ids(page);
  }

  lemma PageIsTable(rows: seq<Message>, cursor: int)
    requires Table(rows)
    ensures Table(ListAfter(rows, cursor, PAGE_SIZE))
  {
    var k := FirstAbove(rows, cursor);
    var page := ListAfter(rows, cursor, PAGE_SIZE);
    SliceIsTable(rows, k, k + |page|);
    assert page == rows[k..k + |page|];
  }

  lemma TablesJoin(a: seq<Message>, b: seq<Message>, between: int)
    requires Table(a) && Table(b)
    requires (forall m :: m in a ==> Key()(m) <= between) && (forall m :: m in b ==> between < Key()(m))
    ensures Table(a + b)
  {
    var all := a + b;
    forall i, j | 0 <= i < j < |all| ensures Key()(all[i]) < Key()(all[j]) {
      assert i < |a| ==> all[i] == a[i] && a[i] in a;
      assert i >= |a| ==> all[i] == b[i - |a|];
      assert j < |a| ==> all[j] == a[j];
      assert j >= |a| ==> all[j] == b[j - |a|] && b[j - |a|] in b;
    }
  }

  /** A row that lasts and lies between two cursors is in the page between them. */
  lemma PageSkipsNothing(rows: seq<Message>, cursor: int, m: Message)
    requires Table(rows) && PresentOrLater(rows, m) && cursor < Key()(m)
    ensures var page := ListAfter(rows, cursor, PAGE_SIZE);
            page != [] && Key()(m) <= Key()(page[|page| - 1]) ==> m in page
  {
    var page := ListAfter(rows, cursor, PAGE_SIZE);
    if page != [] {
      PageHolds(rows, cursor, PAGE_SIZE, page[|page| - 1]);
      if m in rows {
        PageLeavesOut(rows, cursor, PAGE_SIZE, m);
      }
    }
  }

  lemma PageGathers(tables: seq<seq<Message>>, pages: nat, start: int, cursor: int, incoming: seq<Message>, next: int)
    requires Tables(tables) && Gathered(tables, pages, start, cursor, incoming)
    requires var page := ListAfter(TableAt(tables, pages), cursor, PAGE_SIZE);
             page != [] && IsLatest(page, Some(next))
    ensures cursor < next
    ensures Gathered(tables, pages + 1, start, next, incoming + ListAfter(TableAt(tables, pages), cursor, PAGE_SIZE))
  {
    var rows := TableAt(tables, pages);
    var page := ListAfter(rows, cursor, PAGE_SIZE);
    PageIsTable(rows, cursor);
    LastIsLatest(page, Some(next));
    forall m | m in page ensures m in rows && cursor < Key()(m) {
      PageHolds(rows, cursor, PAGE_SIZE, m);
    }
    assert page[|page| - 1] in page;
    TablesJoin(incoming, page, cursor);
    forall m | Lasts(tables, pages + 1, m) && m.Chat? && start < Key()(m) <= next ensures m in incoming + page {
      assert Lasts(tables, pages, m) && PresentOrLater(rows, m);
      if Key()(m) > cursor {
        PageSkipsNothing(rows, cursor, m);
      }
    }
    forall m | m in incoming + page ensures WasRead(tables, pages + 1, m) {
      assert m in incoming ==> WasRead(tables, pages, m);
    }
  }

  /** A page that is not full is the last: nothing above the cursor is left in its table. */
  lemma ShortPageCompletes(tables: seq<seq<Message>>, pages: nat, start: int, cursor: int, incoming: seq<Message>)
    requires Tables(tables) && Gathered(tables, pages, start, cursor, incoming)
    requires |ListAfter(TableAt(tables, pages), cursor, PAGE_SIZE)| < PAGE_SIZE
    ensures Fetched(tables, pages + 1, start, incoming + ListAfter(TableAt(tables, pages), cursor, PAGE_SIZE))
  {
    var rows := TableAt(tables, pages);
    var page := ListAfter(rows, cursor, PAGE_SIZE);
    PageIsTable(rows, cursor);
    forall m | m in page ensures m in rows && cursor < Key()(m) {
      PageHolds(rows, cursor, PAGE_SIZE, m);
    }
    TablesJoin(incoming, page, cursor);
    forall m | Lasts(tables, pages + 1, m) && m in rows && start < Key()(m) ensures m in incoming + page {
      assert Lasts(tables, pages, m);
      if Key()(m) > cursor {
        PageLeavesOut(rows, cursor, PAGE_SIZE, m);
      }
    }
    forall m | m in incoming + page ensures WasRead(tables, pages + 1, m) {
      assert m in incoming ==> WasRead(tables, pages, m);
    }
  }

  /** Rows of the final table above the cursor: what is left once the table has stopped changing. */
  function LeftOver(tables: seq<seq<Message>>, cursor: int): nat
    requires tables != []
  {
    |RowsAbove(TableAt(tables, |tables| - 1), cursor)|
  }

  lemma PageLeavesLess(tables: seq<seq<Message>>, pages: nat, cursor: int, next: int)
    requires Tables(tables) && pages >= |tables| - 1
    requires var page := ListAfter(TableAt(tables, pages), cursor, PAGE_SIZE);
             page != [] && IsLatest(page, Some(next))
    ensures LeftOver(tables, next) < LeftOver(tables, cursor)
  {
    var rows := TableAt(tables, pages);
    var page := ListAfter(rows, cursor, PAGE_SIZE);
    var (k, k') := (FirstAbove(rows, cursor), FirstAbove(rows, next));
    PageIsTable(rows, cursor);
    LastIsLatest(page, Some(next));
    PageAt(rows, cursor, PAGE_SIZE, |page| - 1);
    FirstAboveSplits(rows, next);
    assert Key()(rows[k + |page| - 1]) == next;
    assert rows[k + |page| - 1] in rows;
  }

  function TablesLeft(tables: seq<seq<Message>>, pages: nat): nat {
    if pages < |tables| then |tables| - pages else 0
  }

  lemma NothingGathered(tables: seq<seq<Message>>, start: int)
    requires Tables(tables)
    ensures Gathered(tables, 0, start, start, [])
  {
  }

  /** One turn of the loop: the rows collected, the cursor after the page, and whether another page is asked for. */
  method FetchPage(tables: seq<seq<Message>>, pages: nat, start: int, cursor: int, incoming: seq<Message>)
    returns (collected: seq<Message>, next: int, more: bool)
    requires Tables(tables) && Gathered(tables, pages, start, cursor, incoming)
    ensures more ==> Gathered(tables, pages + 1, start, next, collected)
    ensures more ==> TablesLeft(tables, pages + 1) < TablesLeft(tables, pages)
                     || (pages >= |tables| && LeftOver(tables, next) < LeftOver(tables, cursor))
    ensures !more ==> Fetched(tables, pages + 1, start, collected)
    ensures var page := ListAfter(TableAt(tables, pages), cursor, PAGE_SIZE);
            && collected == incoming + page && (more <==> |page| == PAGE_SIZE)
            && next == if page == [] then cursor else Key()(page[|page| - 1])
  {
    var page := ListAfter(TableAt(tables, pages), cursor, PAGE_SIZE);
    if |page| < PAGE_SIZE {
      ShortPageCompletes(tables, pages, start, cursor, incoming);
    }
    if |page| == 0 {
      assert incoming + page == incoming;
      return incoming, cursor, false;
    }
    collected := incoming + page;
    var nextCursor := LatestChatMessageId(page);
    PageHasLatest(TableAt(tables, pages), cursor, nextCursor);
    PageGathers(tables, pages, start, cursor, incoming, nextCursor.value);
    if pages >= |tables| {
      PageLeavesLess(tables, pages, cursor, nextCursor.value);
    }
    LastIsNext(TableAt(tables, pages), cursor, nextCursor);
    if nextCursor.None? || nextCursor.value == cursor {
      return collected, cursor, false;
    }
    next, more := nextCursor.value, |page| >= PAGE_SIZE;
  }

  lemma LastIsNext(rows: seq<Message>, cursor: int, latest: Option<int>)
    requires Table(rows) && ListAfter(rows, cursor, PAGE_SIZE) != []
    requires IsLatest(ListAfter(rows, cursor, PAGE_SIZE), latest)
    ensures var page := ListAfter(rows, cursor, PAGE_SIZE); latest == Some(Key()(page[|page| - 1]))
  {
    PageIsTable(rows, cursor);
    LastIsLatest(ListAfter(rows, cursor, PAGE_SIZE), latest);
  }

  lemma PageHasLatest(rows: seq<Message>, cursor: int, latest: Option<int>)
    requires Table(rows) && ListAfter(rows, cursor, PAGE_SIZE) != []
    requires IsLatest(ListAfter(rows, cursor, PAGE_SIZE), latest)
    ensures latest.Some?
  {
    PageIsTable(rows, cursor);
    LastIsLatest(ListAfter(rows, cursor, PAGE_SIZE), latest);
  }

  /**
   The paging loop of backfillMessages, with `tables[n]` the table as page n finds it. Whatever is written or
   deleted between pages, the loop ends and has collected, in order and without repeats, rows above the start
   cursor that it read, among them every one that was there at the end and that no page had found deleted.
   */
  method FetchPages(tables: seq<seq<Message>>, startCursor: int) returns (incoming: seq<Message>, pages: nat)
    requires Tables(tables)
    ensures Fetched(tables, pages, startCursor, incoming)
  {
    var cursor, more := startCursor, true;
    incoming, pages := [], 0;
    NothingGathered(tables, startCursor);
    while more
      invariant more ==> Gathered(tables, pages, startCursor, cursor, incoming)
      invariant !more ==> Fetched(tables, pages, startCursor, incoming)
      decreases more, TablesLeft(tables, pages), LeftOver(tables, cursor)
    {
      incoming, cursor, more := FetchPage(tables, pages, startCursor, cursor, incoming);
      pages := pages + 1;
    }
  }

  /** Rows are only appended while the pages are read. */
  predicate Growing(tables: seq<seq<Message>>) {
    Tables(tables) && forall n, n' :: 0 <= n <= n' < |tables| ==> tables[n] <= tables[n']
  }

  lemma TablesGrow(tables: seq<seq<Message>>, n: nat, page: nat)
    requires Growing(tables) && n <= page
    ensures TableAt(tables, n) <= TableAt(tables, page)
  {
  }

  lemma AppendedIsLater(rows: seq<Message>, grown: seq<Message>, m: Message)
    requires Table(grown) && rows <= grown && m in grown
    ensures PresentOrLater(rows, m)
  {
    var j :| 0 <= j < |grown| && grown[j] == m;
    if j < |rows| {
      assert rows[j] == m;
    } else {
      forall r | r in rows ensures Key()(r) < Key()(m) {
        var i :| 0 <= i < |rows| && rows[i] == r;
        assert grown[i] == r && Key()(grown[i]) < Key()(grown[j]);
      }
    }
  }

  lemma PrefixMembers<T>(s: seq<T>, t: seq<T>, x: T)
    requires s <= t && x in s
    ensures x in t
  {
    var i :| 0 <= i < |s| && s[i] == x;
    assert t[i] == x;
  }

  lemma AboveMembers(rows: seq<Message>, start: int, m: Message)
    requires Table(rows)
    ensures m in RowsAbove(rows, start) <==> m in rows && Key()(m) > start
  {
    var (above, k) := (RowsAbove(rows, start), FirstAbove(rows, start));
    FirstAboveSplits(rows, start);
    if m in above {
      var i :| 0 <= i < |above| && above[i] == m;
      assert rows[k + i] == m;
    }
    if m in rows && Key()(m) > start {
      var j :| 0 <= j < |rows| && rows[j] == m;
      assert above[j - k] == m;
    }
  }

  lemma FetchedMembers(tables: seq<seq<Message>>, pages: nat, start: int, incoming: seq<Message>, m: Message)
    requires Growing(tables) && Fetched(tables, pages, start, incoming)
    ensures m in incoming <==> m in RowsAbove(TableAt(tables, pages - 1), start)
  {
    var rows := TableAt(tables, pages - 1);
    AboveMembers(rows, start, m);
    if m in incoming {
      var n: nat :| n < pages && m in TableAt(tables, n);
      TablesGrow(tables, n, pages - 1);
      PrefixMembers(TableAt(tables, n), rows, m);
    }
    if m in rows {
      forall n: nat | n < pages ensures PresentOrLater(TableAt(tables, n), m) {
        TablesGrow(tables, n, pages - 1);
        AppendedIsLater(TableAt(tables, n), rows, m);
      }
    }
  }

  /** When nothing is deleted the catch-up is exactly the rows above the cursor in the table the last page read. */
  lemma FetchedWhenGrowing(tables: seq<seq<Message>>, pages: nat, start: int, incoming: seq<Message>)
    requires Growing(tables) && Fetched(tables, pages, start, incoming)
    ensures incoming == RowsAbove(TableAt(tables, pages - 1), start)
  {
    var rows := TableAt(tables, pages - 1);
    var above := RowsAbove(rows, start);
    SliceIsTable(rows, FirstAbove(rows, start), |rows|);
    assert rows[FirstAbove(rows, start)..|rows|] == above;
    forall m ensures m in Elements(incoming) <==> m in Elements(above) {
      FetchedMembers(tables, pages, start, incoming, m);
    }
    AscendingUnique(incoming, above, Key());
  }

  /** In particular it has every row above the cursor that existed when it began. */
  lemma FetchedRows(tables: seq<seq<Message>>, pages: nat, start: int, incoming: seq<Message>)
    requires Growing(tables) && Fetched(tables, pages, start, incoming)
    ensures Table(incoming)
    ensures forall m :: m in incoming <==> m in TableAt(tables, pages - 1) && Key()(m) > start
    ensures forall m :: m in tables[0] && Key()(m) > start ==> m in incoming
  {
    var rows := TableAt(tables, pages - 1);
    forall m ensures m in incoming <==> m in rows && Key()(m) > start {
      FetchedMembers(tables, pages, start, incoming, m);
      AboveMembers(rows, start, m);
    }
    TablesGrow(tables, 0, pages - 1);
    forall m | m in tables[0] ensures m in rows {
      PrefixMembers(tables[0], rows, m);
    }
  }
}
