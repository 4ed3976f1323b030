/** Grouping the reaction rows of a post by emoji, and the rows of several posts by post. */
module Reactions {
  import opened Filters

  datatype User = User(id: int, handle: string, displayName: string)

  datatype Row = Row(messageId: int, emoji: string, user: User)

  datatype Group = Group(emoji: string, count: nat, users: seq<User>)

  // ---- what the groups of a list of rows are ---------------------------------------------------

  /** The emojis in order of first appearance. */
  function Emojis(rows: seq<Row>): seq<string> {
    if rows == [] then []
    else
      var (before, e) := (Emojis(rows[..|rows| - 1]), rows[|rows| - 1].emoji);
      if e in before then before else before + [e]
  }

  /** Who reacted with an emoji, in row order. */
  function UsersOf(rows: seq<Row>, emoji: string): seq<User> {
    if rows == [] then []
    else
      var last := rows[|rows| - 1];
      UsersOf(rows[..|rows| - 1], emoji) + if last.emoji == emoji then [last.user] else []
  }

  function GroupOf(rows: seq<Row>, emoji: string): Group {
    Group(emoji, |UsersOf(rows, emoji)|, UsersOf(rows, emoji))
  }

  function GroupsOf(rows: seq<Row>): seq<Group> {
    seq(|Emojis(rows)|, i requires 0 <= i < |Emojis(rows)| => GroupOf(rows, Emojis(rows)[i]))
  }

  function RowsFor(rows: seq<Row>, messageId: int): seq<Row> {
    if rows == [] then []
    else
      var last := rows[|rows| - 1];
      RowsFor(rows[..|rows| - 1], messageId) + if last.messageId == messageId then [last] else []
  }

  // ---- properties --------------------------------------------------------------------------------

  function IsFor(messageId: int): Row -> bool {
    (r: Row) => r.messageId == messageId
  }

  function HasEmoji(emoji: string): Row -> bool {
    (r: Row) => r.emoji == emoji
  }

  lemma {:induction false} RowsForIsSelect(rows: seq<Row>, messageId: int)
    ensures RowsFor(rows, messageId) == Select(rows, IsFor(messageId))
  {
    if rows != [] {
      RowsForIsSelect(rows[..|rows| - 1], messageId);
    }
  }

  /** The rows of a post are exactly those with its id, in their order, each once. */
  lemma RowsForSelects(rows: seq<Row>, messageId: int) returns (at: seq<nat>)
    ensures Selects(rows, IsFor(messageId), RowsFor(rows, messageId), at)
  {
    at := SelectSelects(rows, IsFor(messageId));
    RowsForIsSelect(rows, messageId);
  }

  lemma {:induction false} UsersOfSelect(rows: seq<Row>, emoji: string)
    ensures var with := Select(rows, HasEmoji(emoji));
            |UsersOf(rows, emoji)| == |with| && forall i :: 0 <= i < |with| ==> UsersOf(rows, emoji)[i] == with[i].user
  {
    if rows != [] {
      UsersOfSelect(rows[..|rows| - 1], emoji);
    }
  }

  /** The users of a group are those of the rows with its emoji, in row order, one for each row. */
  lemma UsersInRowOrder(rows: seq<Row>, emoji: string) returns (at: seq<nat>)
    ensures Selects(rows, HasEmoji(emoji), Select(rows, HasEmoji(emoji)), at)
    ensures |UsersOf(rows, emoji)| == |at|
    ensures forall i :: 0 <= i < |at| ==> at[i] < |rows| && UsersOf(rows, emoji)[i] == rows[at[i]].user
  {
    at := SelectSelects(rows, HasEmoji(emoji));
    UsersOfSelect(rows, emoji);
  }

  predicate Distinct(es: seq<string>) {
    forall i, j :: 0 <= i < j < |es| ==> es[i] != es[j]
  }

  /** Row `k` is the first with its emoji. */
  predicate FirstAt(rows: seq<Row>, k: nat) {
    k < |rows| && forall j :: 0 <= j < k ==> rows[j].emoji != rows[k].emoji
  }

  /** `at` lists the rows that open a group: ascending, each the first of its emoji, and none left out. */
  ghost predicate Openings(rows: seq<Row>, at: seq<nat>) {
    && (forall i, j :: 0 <= i < j < |at| ==> at[i] < at[j])
    && (forall k: nat :: k in at <==> FirstAt(rows, k))
  }

  lemma {:induction false} FirstAtInit(rows: seq<Row>, k: nat)
    requires rows != []
    ensures k < |rows| - 1 ==> (FirstAt(rows[..|rows| - 1], k) <==> FirstAt(rows, k))
    ensures k >= |rows| - 1 ==> !FirstAt(rows[..|rows| - 1], k)
  {
    var init := rows[..|rows| - 1];
    assert forall j :: 0 <= j < |init| ==> init[j] == rows[j];
  }

  lemma {:induction false} EmojisAppear(rows: seq<Row>, e: string)
    ensures e in Emojis(rows) <==> exists k :: 0 <= k < |rows| && rows[k].emoji == e
  {
    if rows != [] {
      var init, last := rows[..|rows| - 1], rows[|rows| - 1];
      EmojisAppear(init, e);
      assert forall j :: 0 <= j < |init| ==> init[j] == rows[j];
    }
  }

  /** The groups come in the order in which their emojis first appear, one per emoji. */
  lemma {:induction false} FirstAppearanceOrder(rows: seq<Row>) returns (at: seq<nat>)
    ensures Openings(rows, at)
    ensures |at| == |Emojis(rows)|
    ensures forall i :: 0 <= i < |at| ==> at[i] < |rows| && rows[at[i]].emoji == Emojis(rows)[i]
  {
    if rows == [] {
      at := [];
    } else {
      var init, last := rows[..|rows| - 1], rows[|rows| - 1];
      at := FirstAppearanceOrder(init);
      EmojisAppear(init, last.emoji);
      assert forall j :: 0 <= j < |init| ==> init[j] == rows[j];
      forall k: nat ensures (k in at && k < |rows| - 1) == (k < |rows| - 1 && FirstAt(rows, k)) {
        FirstAtInit(rows, k);
      }
      if last.emoji !in Emojis(init) {
        at := at + [|rows| - 1];
      }
    }
  }

  lemma {:induction false} EmojisDistinct(rows: seq<Row>)
    ensures Distinct(Emojis(rows))
  {
    if rows != [] {
      EmojisDistinct(rows[..|rows| - 1]);
    }
  }

  function Total(rows: seq<Row>, es: seq<string>): nat {
    if es == [] then 0 else Total(rows, es[..|es| - 1]) + |UsersOf(rows, es[|es| - 1])|
  }

  lemma {:induction false} TotalStep(rows: seq<Row>, es: seq<string>)
    requires rows != [] && Distinct(es)
    ensures Total(rows, es) == Total(rows[..|rows| - 1], es) + if rows[|rows| - 1].emoji in es then 1 else 0
    decreases |es|
  {
    if es != [] {
      TotalStep(rows, es[..|es| - 1]);
      assert es == es[..|es| - 1] + [es[|es| - 1]];
      assert es[|es| - 1] !in es[..|es| - 1];
    }
  }

  lemma {:induction false} NobodyYet(rows: seq<Row>, e: string)
    requires e !in Emojis(rows)
    ensures UsersOf(rows, e) == []
  {
    if rows != [] {
      NobodyYet(rows[..|rows| - 1], e);
    }
  }

  /** Every row is counted exactly once. */
  lemma {:induction false} CountsSumToRows(rows: seq<Row>)
    ensures Total(rows, Emojis(rows)) == |rows|
  {
    if rows != [] {
      var init, last := rows[..|rows| - 1], rows[|rows| - 1];
      CountsSumToRows(init);
      EmojisDistinct(init);
      TotalStep(rows, Emojis(init));
      if last.emoji !in Emojis(init) {
        NobodyYet(init, last.emoji);
        var es := Emojis(init) + [last.emoji];
        assert es[..|es| - 1] == Emojis(init);
      }
    }
  }

  // ---- the loops -----------------------------------------------------------------------------------

  /** A group under construction; the map of the loop holds references to these. */
  class Building {
    const emoji: string
    var count: nat
    var users: seq<User>

    constructor (emoji: string)
      ensures this.emoji == emoji && count == 0 && users == []
    {
      this.emoji, count, users := emoji, 0, [];
    }

    method Add(user: User)
      modifies this
      ensures count == old(count) + 1 && users == old(users) + [user]
    {
      count := count + 1;
      users := users + [user];
    }

    function Value(): Group
      reads this
    {
      Group(emoji, count, users)
    }
  }

  /** The map under construction: one object per emoji seen, holding that emoji's group so far. */
  ghost predicate Built(rows: seq<Row>, byEmoji: map<string, Building>)
    reads byEmoji.Values
  {
    && (forall e :: e in byEmoji <==> e in Emojis(rows))
    && (forall e :: e in byEmoji ==> byEmoji[e].Value() == GroupOf(rows, e))
  }

  lemma GroupAppend(rows: seq<Row>, r: Row, e: string)
    ensures GroupOf(rows + [r], e)
         == if r.emoji == e then Group(e, |UsersOf(rows, e)| + 1, UsersOf(rows, e) + [r.user]) else GroupOf(rows, e)
  {
    assert (rows + [r])[..|rows|] == rows;
  }

  lemma EmojisAppend(rows: seq<Row>, r: Row)
    ensures Emojis(rows + [r]) == if r.emoji in Emojis(rows) then Emojis(rows) else Emojis(rows) + [r.emoji]
  {
    assert (rows + [r])[..|rows|] == rows;
  }

  /** Find the group of an emoji, or open one at the end of the order. */
  method GroupFor(ghost rows: seq<Row>, emoji: string, order: seq<string>, byEmoji: map<string, Building>)
    returns (order': seq<string>, byEmoji': map<string, Building>)
    requires order == Emojis(rows) && Built(rows, byEmoji)
    ensures order' == if emoji in order then order else order + [emoji]
    ensures byEmoji'.Keys == byEmoji.Keys + {emoji}
    ensures forall e :: e in byEmoji ==> byEmoji'[e] == byEmoji[e]
    ensures emoji !in byEmoji ==> fresh(byEmoji'[emoji])
    ensures forall e :: e in byEmoji' ==> byEmoji'[e].Value() == GroupOf(rows, e)
  {
    if emoji in byEmoji {
      return order, byEmoji;
    }
    NobodyYet(rows, emoji);
    var g := new Building(emoji);
    byEmoji' := byEmoji[emoji := g];
    order' := order + [emoji];
  }

  /** The body of the loop: the user joins the group of the row's emoji. */
  method AddRow(ghost rows: seq<Row>, r: Row, order: seq<string>, byEmoji: map<string, Building>)
    returns (order': seq<string>, byEmoji': map<string, Building>)
    requires order == Emojis(rows) && Built(rows, byEmoji)
    modifies byEmoji.Values
    ensures order' == Emojis(rows + [r]) && Built(rows + [r], byEmoji')
    ensures forall e :: e in byEmoji' ==> (e in byEmoji && byEmoji'[e] == byEmoji[e]) || fresh(byEmoji'[e])
  {
    order', byEmoji' := GroupFor(rows, r.emoji, order, byEmoji);
    EmojisAppend(rows, r);
    byEmoji'[r.emoji].Add(r.user);
    forall e | e in byEmoji' ensures byEmoji'[e].Value() == GroupOf(rows + [r], e) {
      GroupAppend(rows, r, e);
    }
  }

  method ReactionGroupsFromRows(rows: seq<Row>) returns (groups: seq<Group>)
    ensures groups == GroupsOf(rows)
  {
    var order: seq<string>, byEmoji: map<string, Building> := [], map[];
    for i := 0 to |rows|
      invariant order == Emojis(rows[..i])
      invariant forall e :: e in byEmoji ==> fresh(byEmoji[e])
      invariant Built(rows[..i], byEmoji)
    {
      assert rows[..i + 1] == rows[..i] + [rows[i]];
      order, byEmoji := AddRow(rows[..i], rows[i], order, byEmoji);
    }
    assert rows[..|rows|] == rows;
    groups := Collect(rows, order, byEmoji);
  }

  method Collect(ghost rows: seq<Row>, order: seq<string>, byEmoji: map<string, Building>) returns (groups: seq<Group>)
    requires order == Emojis(rows) && Built(rows, byEmoji)
    ensures groups == GroupsOf(rows)
  {
    groups := [];
    for i := 0 to |order|
      invariant |groups| == i && forall k :: 0 <= k < i ==> groups[k] == GroupOf(rows, order[k])
    {
      assert order[i] in byEmoji;
      groups := groups + [byEmoji[order[i]].Value()];
    }
  }

  ghost predicate Split(rows: seq<Row>, byMsg: map<int, seq<Row>>) {
    && (forall id :: id in byMsg <==> RowsFor(rows, id) != [])
    && (forall id :: id in byMsg ==> byMsg[id] == RowsFor(rows, id))
  }

  /** A map is ranged over in no particular order. */
  method AnyOf<T>(s: set<T>) returns (x: T)
    requires s != {}
    ensures x in s
  {
    x :| x in s;
  }

  /** Grouping several posts at once gives each post the groups of its own rows. */
  method ReactionGroupsByMessage(rows: seq<Row>) returns (out: map<int, seq<Group>>)
    ensures forall id :: id in out <==> exists k :: 0 <= k < |rows| && rows[k].messageId == id
    ensures forall id :: id in out ==> out[id] == GroupsOf(RowsFor(rows, id))
  {
    var byMsg: map<int, seq<Row>> := map[];
    for i := 0 to |rows|
      invariant Split(rows[..i], byMsg)
    {
      var r := rows[i];
      assert rows[..i + 1][..i] == rows[..i];
      byMsg := byMsg[r.messageId := (if r.messageId in byMsg then byMsg[r.messageId] else []) + [r]];
    }
    assert rows[..|rows|] == rows;
    var ids := byMsg.Keys;
    out := map[];
    while ids != {}
      invariant ids <= byMsg.Keys
      invariant out.Keys == byMsg.Keys - ids
      invariant forall id :: id in out ==> out[id] == GroupsOf(RowsFor(rows, id))
      decreases |ids|
    {
      var id := AnyOf(ids);
      var groups := ReactionGroupsFromRows(byMsg[id]);
      out := out[id := groups];
      ids := ids - {id};
    }
    forall id ensures id in out <==> exists k :: 0 <= k < |rows| && rows[k].messageId == id {
      RowsForAppear(rows, id);
    }
  }

  /**
   The groups of a list of rows: one for each row that opens an emoji, in that order, with as many users as it
   counts, namely those of the rows with that emoji, in row order.
   */
  lemma GroupsTellRows(rows: seq<Row>) returns (openings: seq<nat>)
    ensures Openings(rows, openings) && |GroupsOf(rows)| == |openings|
    ensures forall i :: 0 <= i < |openings| ==>
              && openings[i] < |rows| && GroupsOf(rows)[i].emoji == rows[openings[i]].emoji
              && GroupsOf(rows)[i].count == |GroupsOf(rows)[i].users|
              && GroupsOf(rows)[i].users == UsersOf(rows, rows[openings[i]].emoji)
  {
    openings := FirstAppearanceOrder(rows);
  }

  /** A post's groups are those of its own rows, taken out of the list in their order. */
  lemma PostGroupsTellRows(rows: seq<Row>, messageId: int) returns (at: seq<nat>, openings: seq<nat>)
    ensures Selects(rows, IsFor(messageId), RowsFor(rows, messageId), at)
    ensures Openings(RowsFor(rows, messageId), openings)
    ensures var groups := GroupsOf(RowsFor(rows, messageId));
            && |groups| == |openings| <= |at|
            && forall i :: 0 <= i < |openings| ==>
                 openings[i] < |at| && at[openings[i]] < |rows| && groups[i].emoji == rows[at[openings[i]]].emoji
  {
    at := RowsForSelects(rows, messageId);
    openings := GroupsTellRows(RowsFor(rows, messageId));
    AscendingBounded(openings, |at|);
  }

  lemma {:induction false} AscendingBounded(at: seq<nat>, bound: nat)
    requires Ascending(at) && forall i :: 0 <= i < |at| ==> at[i] < bound
    ensures |at| <= bound
  {
    if at != [] {
      AscendingBounded(at[..|at| - 1], at[|at| - 1]);
    }
  }

  lemma {:induction false} RowsForAppear(rows: seq<Row>, id: int)
    ensures RowsFor(rows, id) != [] <==> exists k :: 0 <= k < |rows| && rows[k].messageId == id
  {
    if rows != [] {
      var init := rows[..|rows| - 1];
      RowsForAppear(init, id);
      assert forall j :: 0 <= j < |init| ==> init[j] == rows[j];
    }
  }

  /** The counts a post shows add up to the number of its own rows. */
  lemma CountsPerMessage(rows: seq<Row>, id: int)
    ensures Total(RowsFor(rows, id), Emojis(RowsFor(rows, id))) == |RowsFor(rows, id)|
    ensures forall r :: r in RowsFor(rows, id) <==> r in rows && r.messageId == id
  {
    CountsSumToRows(RowsFor(rows, id));
    forall r ensures r in RowsFor(rows, id) <==> r in rows && r.messageId == id {
      RowsForMembers(rows, id, r);
    }
  }

  lemma {:induction false} RowsForMembers(rows: seq<Row>, id: int, r: Row)
    ensures r in RowsFor(rows, id) <==> r in rows && r.messageId == id
  {
    if rows != [] {
      RowsForMembers(rows[..|rows| - 1], id, r);
      assert rows == rows[..|rows| - 1] + [rows[|rows| - 1]];
    }
  }
}
