/** mergeMessages: taking fetched messages into the visible list without repeats. */
module MergeMessages {
  import opened Common
  import opened Sorting
  import opened ChatLog

  function ChatsOf(ms: seq<Message>): seq<Message> {
    if ms == [] then []
    else ChatsOf(ms[..|ms| - 1]) + if ms[|ms| - 1].Chat? then [ms[|ms| - 1]] else []
  }

  function OthersOf(ms: seq<Message>): seq<Message> {
    if ms == [] then []
    else OthersOf(ms[..|ms| - 1]) + if ms[|ms| - 1].Chat? then [] else [ms[|ms| - 1]]
  }

  /** The last `n` elements, or all of them when there are fewer. */
  function Newest<T>(s: seq<T>, n: nat): seq<T> {
    if |s| <= n then s else s[|s| - n..]
  }

  predicate Is(m: Message, id: int) {
    m.Chat? && m.id == id
  }

  function LastWith(ms: seq<Message>, id: int): Option<Message> {
    if ms == [] then None
    else if Is(ms[|ms| - 1], id) then Some(ms[|ms| - 1])
    else LastWith(ms[..|ms| - 1], id)
  }

  function FirstWith(ms: seq<Message>, id: int): Option<Message> {
    if ms == [] then None
    else
      var first := FirstWith(ms[..|ms| - 1], id);
      if first.None? && Is(ms[|ms| - 1], id) then Some(ms[|ms| - 1]) else first
  }

  /** The version of a message that is kept: the visible one, else the first that was fetched. */
  function Chosen(current: seq<Message>, incoming: seq<Message>, id: int): Option<Message> {
    var visible := LastWith(current, id);
    if visible.Some? then visible else FirstWith(incoming, id)
  }

  lemma {:induction false} LastWithFinds(ms: seq<Message>, id: int)
    ensures LastWith(ms, id).Some? <==> id in Ids(ms)
    ensures LastWith(ms, id).Some? ==> Is(LastWith(ms, id).value, id)
  {
    if ms != [] {
      LastWithFinds(ms[..|ms| - 1], id);
      IdsAppend(ms[..|ms| - 1], ms[|ms| - 1]);
      assert ms == ms[..|ms| - 1] + [ms[|ms| - 1]];
    }
  }

  lemma {:induction false} FirstWithFinds(ms: seq<Message>, id: int)
    ensures FirstWith(ms, id).Some? <==> id in Ids(ms)
    ensures FirstWith(ms, id).Some? ==> Is(FirstWith(ms, id).value, id)
  {
    if ms != [] {
      FirstWithFinds(ms[..|ms| - 1], id);
      IdsAppend(ms[..|ms| - 1], ms[|ms| - 1]);
      assert ms == ms[..|ms| - 1] + [ms[|ms| - 1]];
    }
  }

  lemma {:induction false} LastWithIsLast(ms: seq<Message>, id: int) returns (i: nat)
    requires LastWith(ms, id).Some?
    ensures i < |ms| && LastWith(ms, id) == Some(ms[i])
    ensures forall k :: i < k < |ms| ==> !Is(ms[k], id)
  {
    if Is(ms[|ms| - 1], id) {
      i := |ms| - 1;
    } else {
      i := LastWithIsLast(ms[..|ms| - 1], id);
      forall k | i < k < |ms| ensures !Is(ms[k], id) {
        assert k < |ms| - 1 ==> ms[..|ms| - 1][k] == ms[k];
      }
    }
  }

  lemma {:induction false} FirstWithIsFirst(ms: seq<Message>, id: int) returns (i: nat)
    requires FirstWith(ms, id).Some?
    ensures i < |ms| && FirstWith(ms, id) == Some(ms[i])
    ensures forall k :: 0 <= k < i ==> !Is(ms[k], id)
  {
    var init := ms[..|ms| - 1];
    if FirstWith(init, id).Some? {
      i := FirstWithIsFirst(init, id);
      assert forall k :: 0 <= k <= i ==> init[k] == ms[k];
    } else {
      i := |ms| - 1;
      FirstWithFinds(init, id);
      forall k | 0 <= k < i ensures !Is(ms[k], id) {
        assert init[k] == ms[k] && init[k] in init;
      }
    }
  }

  lemma IdsAppend(ms: seq<Message>, m: Message)
    ensures Ids(ms + [m]) == Ids(ms) + if m.Chat? then {m.id} else {}
  {
  }

  lemma ChosenFinds(current: seq<Message>, incoming: seq<Message>, id: int)
    ensures Chosen(current, incoming, id).Some? <==> id in Ids(current) + Ids(incoming)
    ensures Chosen(current, incoming, id).Some? ==> Is(Chosen(current, incoming, id).value, id)
  {
    LastWithFinds(current, id);
    FirstWithFinds(incoming, id);
  }

  lemma Snoc(ms: seq<Message>, m: Message)
    ensures ChatsOf(ms + [m]) == ChatsOf(ms) + if m.Chat? then [m] else []
    ensures OthersOf(ms + [m]) == OthersOf(ms) + if m.Chat? then [] else [m]
  {
    assert (ms + [m])[..|ms|] == ms;
  }

  // ---- what a merge is ---------------------------------------------------------------------------

  /** `kept` are the `n` largest of `all`, or all of them when there are fewer. */
  ghost predicate LargestOf(kept: set<int>, all: set<int>, n: nat) {
    && kept <= all
    && |kept| == (if |all| <= n then |all| else n)
    && forall i, j :: i in kept && j in all && j !in kept ==> j < i
  }

  /**
   The visible list after a merge: other messages first, then chat messages in id order without repeats.
   Of all chat ids on either side the largest 200 are kept, each in its chosen version; other messages
   only fill the places left over, the most recent ones first.
   */
  ghost predicate IsMerge(current: seq<Message>, incoming: seq<Message>, merged: seq<Message>) {
    && merged == OthersOf(merged) + ChatsOf(merged)
    && StrictlyAscending(ChatsOf(merged), Key())
    && LargestOf(Ids(merged), Ids(current) + Ids(incoming), KEEP)
    && (forall m :: m in ChatsOf(merged) ==> m.Chat? && Chosen(current, incoming, m.id) == Some(m))
    && |ChatsOf(merged)| <= KEEP
    && OthersOf(merged) == Newest(OthersOf(current), KEEP - |ChatsOf(merged)|)
  }

  // ---- the two loops -----------------------------------------------------------------------------

  /** The Map of the merge: keys in insertion order and the message stored under each. */
  ghost predicate Holds(order: seq<int>, byID: map<int, Message>, current: seq<Message>, incoming: seq<Message>) {
    && (forall i, j :: 0 <= i < j < |order| ==> order[i] != order[j])
    && (forall i :: 0 <= i < |order| ==> order[i] in byID)
    && (forall id :: id in byID ==> id in order)
    && (forall id :: id in byID <==> Chosen(current, incoming, id).Some?)
    && (forall id :: id in byID ==> Chosen(current, incoming, id) == Some(byID[id]))
  }

  lemma ChosenAfterCurrent(current: seq<Message>, m: Message, id: int)
    ensures Chosen(current + [m], [], id) == if Is(m, id) then Some(m) else Chosen(current, [], id)
  {
    assert (current + [m])[..|current|] == current;
  }

  lemma ChosenAfterIncoming(current: seq<Message>, incoming: seq<Message>, m: Message, id: int)
    ensures Chosen(current, incoming + [m], id)
         == if Chosen(current, incoming, id).None? && Is(m, id) then Some(m) else Chosen(current, incoming, id)
  {
    assert (incoming + [m])[..|incoming|] == incoming;
  }

  /** Map.set: a new key goes to the end of the order, a known one keeps its place. */
  function OrderWith(order: seq<int>, byID: map<int, Message>, id: int): seq<int> {
    if id in byID then order else order + [id]
  }

  lemma SetHolds(order: seq<int>, byID: map<int, Message>, m: Message,
                 current: seq<Message>, incoming: seq<Message>, current': seq<Message>, incoming': seq<Message>)
    requires Holds(order, byID, current, incoming) && m.Chat?
    requires forall id ::
               Chosen(current', incoming', id) == if id == m.id then Some(m) else Chosen(current, incoming, id)
    ensures Holds(OrderWith(order, byID, m.id), byID[m.id := m], current', incoming')
  {
    assert m.id !in byID ==> forall i :: 0 <= i < |order| ==> order[i] != m.id;
    assert forall i :: 0 <= i < |order| ==> OrderWith(order, byID, m.id)[i] == order[i];
    assert m.id in OrderWith(order, byID, m.id);
  }

  method CollectCurrent(current: seq<Message>) returns (order: seq<int>, byID: map<int, Message>, nonChat: seq<Message>)
    ensures Holds(order, byID, current, [])
    ensures nonChat == OthersOf(current)
  {
    order, byID, nonChat := [], map[], [];
    for i := 0 to |current|
      invariant Holds(order, byID, current[..i], [])
      invariant nonChat == OthersOf(current[..i])
    {
      var m := current[i];
      assert current[..i + 1] == current[..i] + [m];
      Snoc(current[..i], m);
      forall id {
        ChosenAfterCurrent(current[..i], m, id);
      }
      if m.Chat? {
        SetHolds(order, byID, m, current[..i], [], current[..i + 1], []);
        order, byID := OrderWith(order, byID, m.id), byID[m.id := m];
      } else {
        nonChat := nonChat + [m];
      }
    }
    assert current[..|current|] == current;
  }

  method CollectIncoming(current: seq<Message>, incoming: seq<Message>, order0: seq<int>, byID0: map<int, Message>)
    returns (order: seq<int>, byID: map<int, Message>)
    requires Holds(order0, byID0, current, [])
    ensures Holds(order, byID, current, incoming)
  {
    order, byID := order0, byID0;
    for i := 0 to |incoming|
      invariant Holds(order, byID, current, incoming[..i])
    {
      var m := incoming[i];
      assert incoming[..i + 1] == incoming[..i] + [m];
      forall id {
        ChosenAfterIncoming(current, incoming[..i], m, id);
      }
      if m.Chat? && m.id !in byID {
        SetHolds(order, byID, m, current, incoming[..i], current, incoming[..i + 1]);
        order, byID := OrderWith(order, byID, m.id), byID[m.id := m];
      }
    }
    assert incoming[..|incoming|] == incoming;
  }

  /** [...byID.values()], in insertion order. */
  function Values(order: seq<int>, byID: map<int, Message>): seq<Message>
    requires forall i :: 0 <= i < |order| ==> order[i] in byID
  {
    seq(|order|, i requires 0 <= i < |order| => byID[order[i]])
  }

  // ---- sorting the values ------------------------------------------------------------------------

  /** The sorted values: every chosen message once, in id order. */
  ghost predicate SortedUnion(chats: seq<Message>, current: seq<Message>, incoming: seq<Message>) {
    && AllChat(chats)
    && StrictlyAscending(chats, Key())
    && Ids(chats) == Ids(current) + Ids(incoming)
    && forall m :: m in chats ==> Chosen(current, incoming, Key()(m)) == Some(m)
  }

  lemma ValueOf(order: seq<int>, byID: map<int, Message>, current: seq<Message>, incoming: seq<Message>, i: nat)
    requires Holds(order, byID, current, incoming) && i < |order|
    ensures var m := Values(order, byID)[i];
            m.Chat? && m.id == order[i] && Chosen(current, incoming, m.id) == Some(m)
  {
    var id := order[i];
    assert id in order;
    ChosenFinds(current, incoming, id);
  }

  lemma ValuesDistinct(order: seq<int>, byID: map<int, Message>, current: seq<Message>, incoming: seq<Message>)
    requires Holds(order, byID, current, incoming)
    ensures DistinctKeys(Values(order, byID), Key())
  {
    forall i | 0 <= i < |order| ensures Key()(Values(order, byID)[i]) == order[i] {
      ValueOf(order, byID, current, incoming, i);
    }
  }

  lemma ValuesAreChosen(
    order: seq<int>, byID: map<int, Message>, current: seq<Message>, incoming: seq<Message>, m: Message)
    requires Holds(order, byID, current, incoming)
    ensures m in Values(order, byID) <==> m.Chat? && Chosen(current, incoming, m.id) == Some(m)
  {
    var values := Values(order, byID);
    if m in values {
      var i :| 0 <= i < |values| && values[i] == m;
      ValueOf(order, byID, current, incoming, i);
    }
    if m.Chat? && Chosen(current, incoming, m.id) == Some(m) {
      assert m.id in byID && m.id in order;
      var i :| 0 <= i < |order| && order[i] == m.id;
      assert values[i] == m;
    }
  }

  lemma ValuesSort(order: seq<int>, byID: map<int, Message>, current: seq<Message>, incoming: seq<Message>)
    requires Holds(order, byID, current, incoming)
    ensures SortedUnion(SortBy(Values(order, byID), Key()), current, incoming)
  {
    var values := Values(order, byID);
    var chats := SortBy(values, Key());
    ValuesDistinct(order, byID, current, incoming);
    SortDistinct(values, Key());
    forall m ensures m in chats <==> m.Chat? && Chosen(current, incoming, Key()(m)) == Some(m) {
      assert m in Elements(chats) <==> m in Elements(values);
      ValuesAreChosen(order, byID, current, incoming, m);
    }
    ChosenIds(chats, current, incoming);
  }

  lemma ChosenIds(chats: seq<Message>, current: seq<Message>, incoming: seq<Message>)
    requires forall m :: m in chats <==> m.Chat? && Chosen(current, incoming, Key()(m)) == Some(m)
    ensures Ids(chats) == Ids(current) + Ids(incoming)
  {
    forall id ensures id in Ids(chats) <==> id in Ids(current) + Ids(incoming) {
      ChosenFinds(current, incoming, id);
      var chosen := Chosen(current, incoming, id);
      if chosen.Some? {
        assert Key()(chosen.value) == id;
        assert chosen.value in chats;
      }
    }
  }

  // ---- slicing to the last 200 -------------------------------------------------------------------

  predicate NoChat(ms: seq<Message>) {
    forall m :: m in ms ==> m.Other?
  }

  lemma {:induction false} OnlyOthers(others: seq<Message>)
    requires NoChat(others)
    ensures ChatsOf(others) == [] && OthersOf(others) == others
  {
    if others != [] {
      var init, last := others[..|others| - 1], others[|others| - 1];
      assert others == init + [last];
      assert last in others;
      OnlyOthers(init);
    }
  }

  lemma {:induction false} Separates(others: seq<Message>, chats: seq<Message>)
    requires NoChat(others) && AllChat(chats)
    ensures ChatsOf(others + chats) == chats && OthersOf(others + chats) == others
    decreases |chats|
  {
    if chats == [] {
      OnlyOthers(others);
      assert others + chats == others;
    } else {
      var init, last := chats[..|chats| - 1], chats[|chats| - 1];
      assert last in chats;
      Separates(others, init);
      Snoc(others + init, last);
      assert others + chats == (others + init) + [last] && chats == init + [last];
    }
  }

  lemma {:induction false} OthersHaveNoChat(ms: seq<Message>)
    ensures NoChat(OthersOf(ms))
  {
    if ms != [] {
      OthersHaveNoChat(ms[..|ms| - 1]);
    }
  }

  lemma {:induction false} AscendingCount(chats: seq<Message>)
    requires AllChat(chats) && StrictlyAscending(chats, Key())
    ensures |Ids(chats)| == |chats|
  {
    if chats == [] {
      assert Ids(chats) == {};
    } else {
      InitAndLastIds(chats);
      AscendingCount(chats[..|chats| - 1]);
    }
  }

  lemma InitAndLastIds(chats: seq<Message>)
    requires Table(chats) && chats != []
    ensures var (init, last) := (chats[..|chats| - 1], Key()(chats[|chats| - 1]));
            Table(init) && last !in Ids(init) && Ids(chats) == Ids(init) + {last}
  {
    var (init, last) := (chats[..|chats| - 1], chats[|chats| - 1]);
    SliceIsTable(chats, 0, |chats| - 1);
    assert chats[0..|chats| - 1] == init;
    assert last in chats && chats == init + [last];
    IdsAppend(init, last);
    LastIsNew(chats);
  }

  lemma LastIsNew(chats: seq<Message>)
    requires Table(chats) && chats != []
    ensures Key()(chats[|chats| - 1]) !in Ids(chats[..|chats| - 1])
  {
    var init, last := chats[..|chats| - 1], Key()(chats[|chats| - 1]);
    forall m | m in init && m.Chat? ensures m.id < last {
      var i :| 0 <= i < |init| && init[i] == m;
      assert Key()(chats[i]) < Key()(chats[|chats| - 1]);
    }
  }

  /** Slicing a concatenation takes from the second part first. */
  lemma NewestSplits<T>(s: seq<T>, t: seq<T>, n: nat)
    ensures |Newest(t, n)| <= n
    ensures Newest(s + t, n) == Newest(s, n - |Newest(t, n)|) + Newest(t, n)
  {
    if |t| <= n < |s| + |t| {
      assert (s + t)[|s| + |t| - n..] == s[|s| + |t| - n..] + t;
    } else if n < |t| {
      assert (s + t)[|s| + |t| - n..] == t[|t| - n..];
    }
  }

  lemma NewestNoChat(ms: seq<Message>, n: nat)
    requires NoChat(ms)
    ensures NoChat(Newest(ms, n))
  {
  }

  lemma KeptAt<T>(s: seq<T>, n: nat, i: nat)
    requires i < |Newest(s, n)|
    ensures Newest(s, n)[i] == s[|s| - |Newest(s, n)| + i] && Newest(s, n)[i] in s
  {
  }

  lemma StillKept<T>(s: seq<T>, n: nat, q: nat)
    requires |s| - |Newest(s, n)| <= q < |s|
    ensures s[q] in Newest(s, n)
  {
    KeptAt(s, n, q - (|s| - |Newest(s, n)|));
  }

  lemma NewestAscending(chats: seq<Message>, n: nat)
    requires AllChat(chats) && StrictlyAscending(chats, Key())
    ensures var kept := Newest(chats, n);
            && AllChat(kept) && StrictlyAscending(kept, Key())
            && (forall m :: m in kept ==> m in chats)
  {
    var kept := Newest(chats, n);
    forall i, j | 0 <= i < j < |kept| ensures Key()(kept[i]) < Key()(kept[j]) {
      KeptAt(chats, n, i);
      KeptAt(chats, n, j);
    }
    forall m | m in kept ensures m in chats {
      var i :| 0 <= i < |kept| && kept[i] == m;
      KeptAt(chats, n, i);
    }
  }

  lemma NewestAreLargest(chats: seq<Message>, n: nat)
    requires AllChat(chats) && StrictlyAscending(chats, Key())
    ensures LargestOf(Ids(Newest(chats, n)), Ids(chats), n)
  {
    var kept := Newest(chats, n);
    NewestAscending(chats, n);
    AscendingCount(chats);
    AscendingCount(kept);
    forall i, j | i in Ids(kept) && j in Ids(chats) && j >= i ensures j in Ids(kept) {
      LargerIsKept(chats, n, i, j);
    }
  }

  lemma Position(ms: seq<Message>, id: int) returns (q: nat)
    requires id in Ids(ms)
    ensures q < |ms| && Is(ms[q], id)
  {
    var m :| m in ms && m.Chat? && m.id == id;
    q :| 0 <= q < |ms| && ms[q] == m;
  }

  lemma HasId(chats: seq<Message>, q: nat)
    requires q < |chats| && chats[q].Chat?
    ensures Key()(chats[q]) in Ids(chats)
  {
    assert chats[q] in chats;
  }

  lemma LargerIsKept(chats: seq<Message>, n: nat, i: int, j: int)
    requires AllChat(chats) && StrictlyAscending(chats, Key())
    requires i in Ids(Newest(chats, n)) && j in Ids(chats) && j >= i
    ensures j in Ids(Newest(chats, n))
  {
    var kept := Newest(chats, n);
    var p := Position(kept, i);
    var q := Position(chats, j);
    KeptAt(chats, n, p);
    AscendingOrder(chats, Key(), |chats| - |kept| + p, q);
    StillKept(chats, n, q);
    assert chats[q] in chats;
  }

  lemma SliceIsMerge(current: seq<Message>, incoming: seq<Message>, chats: seq<Message>)
    requires SortedUnion(chats, current, incoming)
    ensures IsMerge(current, incoming, Newest(OthersOf(current) + chats, KEEP))
  {
    var nonChat := OthersOf(current);
    var kept := Newest(chats, KEEP);
    NewestSplits(nonChat, chats, KEEP);
    OthersHaveNoChat(current);
    var others := Newest(nonChat, KEEP - |kept|);
    NewestNoChat(nonChat, KEEP - |kept|);
    NewestAscending(chats, KEEP);
    NewestAreLargest(chats, KEEP);
    TogetherAreMerge(current, incoming, others, kept);
  }

  lemma TogetherAreMerge(current: seq<Message>, incoming: seq<Message>, others: seq<Message>, kept: seq<Message>)
    requires AllChat(kept) && StrictlyAscending(kept, Key()) && |kept| <= KEEP
    requires LargestOf(Ids(kept), Ids(current) + Ids(incoming), KEEP)
    requires forall m :: m in kept ==> Chosen(current, incoming, Key()(m)) == Some(m)
    requires NoChat(others) && others == Newest(OthersOf(current), KEEP - |kept|)
    ensures IsMerge(current, incoming, others + kept)
  {
    Separates(others, kept);
    IdsOfChats(others, kept);
  }

  lemma IdsOfChats(others: seq<Message>, chats: seq<Message>)
    requires NoChat(others)
    ensures Ids(others + chats) == Ids(chats)
  {
  }

  // ---- the operation -----------------------------------------------------------------------------

  method Merge(current: seq<Message>, incoming: seq<Message>) returns (merged: seq<Message>)
    ensures IsMerge(current, incoming, merged)
  {
    var order, byID, nonChat := CollectCurrent(current);
    order, byID := CollectIncoming(current, incoming, order, byID);
    var chatMessages := SortBy(Values(order, byID), Key());
    ValuesSort(order, byID, current, incoming);
    SliceIsMerge(current, incoming, chatMessages);
    merged := Newest(nonChat + chatMessages, KEEP);
  }

  /** The description of a merge leaves no choice: it has one result. */
  lemma MergeUnique(current: seq<Message>, incoming: seq<Message>, a: seq<Message>, b: seq<Message>)
    requires IsMerge(current, incoming, a) && IsMerge(current, incoming, b)
    ensures a == b
  {
    SameChatList(current, incoming, a, b);
    MergeShape(current, incoming, a);
    MergeShape(current, incoming, b);
  }

  lemma MergeShape(current: seq<Message>, incoming: seq<Message>, merged: seq<Message>)
    requires IsMerge(current, incoming, merged)
    ensures merged == Shaped(OthersOf(current), ChatsOf(merged))
  {
  }

  function Shaped(others: seq<Message>, chats: seq<Message>): seq<Message> {
    Newest(others, if |chats| <= KEEP then KEEP - |chats| else 0) + chats
  }

  lemma SameChatList(current: seq<Message>, incoming: seq<Message>, a: seq<Message>, b: seq<Message>)
    requires IsMerge(current, incoming, a) && IsMerge(current, incoming, b)
    ensures ChatsOf(a) == ChatsOf(b)
  {
    SameIds(current, incoming, a, b);
    SameChats(current, incoming, a, b);
    SameOrder(ChatsOf(a), ChatsOf(b));
  }

  lemma SameIds(current: seq<Message>, incoming: seq<Message>, a: seq<Message>, b: seq<Message>)
    requires IsMerge(current, incoming, a) && IsMerge(current, incoming, b)
    ensures Ids(a) == Ids(b)
  {
    LargestUnique(Ids(a), Ids(b), Ids(current) + Ids(incoming), KEEP);
  }

  lemma SameOrder(a: seq<Message>, b: seq<Message>)
    requires StrictlyAscending(a, Key()) && StrictlyAscending(b, Key()) && Elements(a) == Elements(b)
    ensures a == b
  {
    AscendingUnique(a, b, Key());
  }

  lemma SameChats(current: seq<Message>, incoming: seq<Message>, a: seq<Message>, b: seq<Message>)
    requires IsMerge(current, incoming, a) && IsMerge(current, incoming, b) && Ids(a) == Ids(b)
    ensures Elements(ChatsOf(a)) == Elements(ChatsOf(b))
  {
    forall m ensures m in Elements(ChatsOf(a)) <==> m in Elements(ChatsOf(b)) {
      ChosenOfIds(current, incoming, a, m);
      ChosenOfIds(current, incoming, b, m);
    }
  }

  lemma ChosenOfIds(current: seq<Message>, incoming: seq<Message>, merged: seq<Message>, m: Message)
    requires IsMerge(current, incoming, merged)
    ensures m in Elements(ChatsOf(merged)) <==>
              m.Chat? && m.id in Ids(merged) && Chosen(current, incoming, m.id) == Some(m)
  {
    ChatsOfMembers(merged, m);
    if m.Chat? && m.id in Ids(merged) {
      var m' :| m' in merged && m'.Chat? && m'.id == m.id;
      ChatsOfMembers(merged, m');
    }
  }

  lemma {:induction false} ChatsOfMembers(ms: seq<Message>, m: Message)
    ensures m in ChatsOf(ms) <==> m in ms && m.Chat?
  {
    if ms != [] {
      ChatsOfMembers(ms[..|ms| - 1], m);
      assert ms == ms[..|ms| - 1] + [ms[|ms| - 1]];
    }
  }

  lemma LargestUnique(a: set<int>, b: set<int>, all: set<int>, n: nat)
    requires LargestOf(a, all, n) && LargestOf(b, all, n)
    ensures a == b
  {
    if a != b {
      var x, y := Differ(a, b);
      assert false;
    }
  }

  /** Different sets of one size each hold something the other lacks. */
  lemma Differ<T>(a: set<T>, b: set<T>) returns (x: T, y: T)
    requires |a| == |b| && a != b
    ensures x in a - b && y in b - a
  {
    if a <= b { SubsetCard(a, b); }
    if b <= a { SubsetCard(b, a); }
    assert exists x :: x in a && x !in b;
    x :| x in a && x !in b;
    assert exists y :: y in b && y !in a;
    y :| y in b && y !in a;
  }

  lemma {:induction false} SubsetCard<T>(a: set<T>, b: set<T>)
    requires a <= b
    ensures |a| <= |b| && (|a| == |b| ==> a == b)
    decreases a
  {
    if a == {} {
      if b != {} {
        var x :| x in b;
        assert |b| == |b - {x}| + 1;
      }
    } else {
      var x :| x in a;
      SubsetCard(a - {x}, b - {x});
      assert a == (a - {x}) + {x} && b == (b - {x}) + {x};
    }
  }
}
