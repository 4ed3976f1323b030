/**
 Channel admission lists: the keys that identify an entry or a user, the cleaning of a list before it is
 stored, and the decision. Everything is stated for any trimming, lower-casing and URL canonicalisation.
 */
module Access {
  import opened Common
  import opened Filters

  datatype Entry = Entry(provider: string, subject: string, handle: string, profileURL: string, raw: string)

  /** strings.TrimSpace, strings.ToLower and canonicalURL. */
  datatype Text = Text(trim: string -> string, lower: string -> string, canonicalURL: string -> Option<string>)

  datatype Mode = NoRestriction | Whitelist | Blacklist

  // ---- keys --------------------------------------------------------------------------------------

  function SubjectKey(t: Text, provider: string, subject: string): string {
    "subject:" + t.lower(t.trim(provider)) + ":" + t.lower(t.trim(subject))
  }

  function HandleKey(t: Text, handle: string): string {
    "handle:" + t.lower(t.trim(handle))
  }

  function URLKeys(t: Text, url: string): seq<string> {
    match t.canonicalURL(url)
    case None => []
    case Some(canon) => ["url:" + canon]
  }

  function RawKeys(t: Text, raw: string): seq<string> {
    var s := t.trim(raw);
    if s == "" then []
    else if "http://" <= t.lower(s) || "https://" <= t.lower(s) then URLKeys(t, s)
    else
      var handle := t.trim(if s[0] == '@' then s[1..] else s);
      if handle == "" then [] else [HandleKey(t, handle)]
  }

  /** Stable id, then handle, then profile URL; the raw input only when there is none of these. */
  function EntryKeys(t: Text, e: Entry): seq<string> {
    var keys :=
      (if e.provider != "" && e.subject != "" then [SubjectKey(t, e.provider, e.subject)] else [])
      + (if e.handle != "" then [HandleKey(t, e.handle)] else [])
      + (if e.profileURL != "" then URLKeys(t, e.profileURL) else []);
    if keys == [] && e.raw != "" then RawKeys(t, e.raw) else keys
  }

  function UserKeys(t: Text, provider: string, subject: string, handle: string, profileURL: string): set<string> {
    var (p, s, h) := (t.trim(provider), t.trim(subject), t.trim(handle));
    (if p != "" && s != "" then {SubjectKey(t, p, s)} else {})
    + (if h != "" then {HandleKey(t, h)} else {})
    + (set k | profileURL != "" && k in URLKeys(t, profileURL))
  }

  // ---- the decision ------------------------------------------------------------------------------

  predicate Matches(t: Text, e: Entry, user: set<string>) {
    exists k :: k in EntryKeys(t, e) && k in user
  }

  ghost predicate IsListed(t: Text, list: seq<Entry>, user: set<string>) {
    exists e :: e in list && Matches(t, e, user)
  }

  /** The inner loop: does any key of one entry hit? */
  method HasKey(keys: seq<string>, user: set<string>) returns (hit: bool)
    ensures hit <==> exists k :: k in keys && k in user
  {
    for i := 0 to |keys|
      invariant forall j :: 0 <= j < i ==> keys[j] !in user
    {
      if keys[i] in user {
        return true;
      }
    }
    return false;
  }

  method Listed(t: Text, list: seq<Entry>, user: set<string>) returns (hit: bool)
    ensures hit <==> IsListed(t, list, user)
  {
    if |user| == 0 {
      return false;
    }
    for i := 0 to |list|
      invariant forall j :: 0 <= j < i ==> !Matches(t, list[j], user)
    {
      var found := HasKey(EntryKeys(t, list[i]), user);
      if found {
        assert list[i] in list && Matches(t, list[i], user);
        return true;
      }
    }
    return false;
  }

  ghost predicate IsAllowed(t: Text, mode: Mode, list: seq<Entry>, user: set<string>) {
    match mode
    case Whitelist => IsListed(t, list, user)
    case Blacklist => !IsListed(t, list, user)
    case NoRestriction => true
  }

  function NormalizeMode(mode: string): Mode {
    if mode == "whitelist" then Whitelist else if mode == "blacklist" then Blacklist else NoRestriction
  }

  method Allowed(t: Text, mode: string, list: seq<Entry>, user: set<string>) returns (ok: bool)
    ensures ok <==> IsAllowed(t, NormalizeMode(mode), list, user)
    ensures mode == "whitelist" ==> (ok <==> IsListed(t, list, user))
    ensures mode == "blacklist" ==> (ok <==> !IsListed(t, list, user))
    ensures mode != "whitelist" && mode != "blacklist" ==> ok
  {
    match NormalizeMode(mode)
    case Whitelist =>
      ok := Listed(t, list, user);
    case Blacklist =>
      var hit := Listed(t, list, user);
      ok := !hit;
    case NoRestriction =>
      ok := true;
  }

  // ---- cleaning ----------------------------------------------------------------------------------

  type PrimaryKey = Entry -> Option<string>

  /** The key by which repeated entries are recognised. */
  function Primary(t: Text): PrimaryKey {
    (e: Entry) =>
      var keys := EntryKeys(t, e);
      if keys == [] then None else Some(keys[0])
  }

  /** Entry `k` has a key, and no earlier entry has the same primary key. */
  predicate Stays(key: PrimaryKey, entries: seq<Entry>, k: nat) {
    && k < |entries| && key(entries[k]).Some?
    && forall j :: 0 <= j < k ==> key(entries[j]) != key(entries[k])
  }

  function Clean(key: PrimaryKey, entries: seq<Entry>): seq<Entry> {
    if entries == [] then []
    else
      var last := |entries| - 1;
      Clean(key, entries[..last]) + if Stays(key, entries, last) then [entries[last]] else []
  }

  ghost function Primaries(key: PrimaryKey, entries: seq<Entry>): set<string> {
    set e | e in entries && key(e).Some? :: key(e).value
  }

  lemma PrimariesAppend(key: PrimaryKey, entries: seq<Entry>, e: Entry)
    ensures Primaries(key, entries + [e]) == Primaries(key, entries) + if key(e).Some? then {key(e).value} else {}
  {
  }

  /** An entry that comes last stays exactly when its primary key is new. */
  lemma StaysWhenNew(key: PrimaryKey, entries: seq<Entry>, e: Entry)
    ensures Stays(key, entries + [e], |entries|) <==> key(e).Some? && key(e).value !in Primaries(key, entries)
  {
    var all := entries + [e];
    assert forall j :: 0 <= j < |entries| ==> all[j] == entries[j] && entries[j] in entries;
  }

  lemma CleanAppend(key: PrimaryKey, entries: seq<Entry>, e: Entry)
    ensures Clean(key, entries + [e])
         == Clean(key, entries) + if key(e).Some? && key(e).value !in Primaries(key, entries) then [e] else []
  {
    StaysWhenNew(key, entries, e);
    assert (entries + [e])[..|entries|] == entries;
  }

  lemma CleanStep(key: PrimaryKey, entries: seq<Entry>, i: nat)
    requires i < |entries|
    ensures Clean(key, entries[..i + 1])
         == Clean(key, entries[..i])
            + if key(entries[i]).Some? && key(entries[i]).value !in Primaries(key, entries[..i])
              then [entries[i]] else []
    ensures Primaries(key, entries[..i + 1])
         == Primaries(key, entries[..i]) + if key(entries[i]).Some? then {key(entries[i]).value} else {}
  {
    assert entries[..i + 1] == entries[..i] + [entries[i]];
    PrimariesAppend(key, entries[..i], entries[i]);
    CleanAppend(key, entries[..i], entries[i]);
  }

  /** The loop: keep an entry when its primary key is present and not seen yet. */
  method KeepFirst(key: PrimaryKey, entries: seq<Entry>) returns (kept: seq<Entry>)
    ensures kept == Clean(key, entries)
  {
    kept := [];
    var seen: set<string> := {};
    for i := 0 to |entries|
      invariant kept == Clean(key, entries[..i])
      invariant seen == Primaries(key, entries[..i])
    {
      CleanStep(key, entries, i);
      var primary := key(entries[i]);
      if primary.None? || primary.value in seen {
        continue;
      }
      seen := seen + {primary.value};
      kept := kept + [entries[i]];
    }
    assert entries[..|entries|] == entries;
  }

  method CleanEntries(t: Text, entries: seq<Entry>) returns (cleaned: seq<Entry>)
    ensures cleaned == Clean(Primary(t), entries)
  {
    cleaned := KeepFirst(Primary(t), entries);
  }

  // ---- what cleaning keeps -------------------------------------------------------------------------

  /** `at` lists, in ascending order, exactly the positions that stay. */
  ghost predicate Staying(key: PrimaryKey, entries: seq<Entry>, at: seq<nat>) {
    Ascending(at) && forall k: nat :: k in at <==> Stays(key, entries, k)
  }

  lemma StaysInit(key: PrimaryKey, entries: seq<Entry>, k: nat)
    requires entries != []
    ensures k < |entries| - 1 ==> (Stays(key, entries[..|entries| - 1], k) <==> Stays(key, entries, k))
  {
    var init := entries[..|entries| - 1];
    assert forall j :: 0 <= j < |init| ==> init[j] == entries[j];
  }

  lemma StayingExtends(key: PrimaryKey, entries: seq<Entry>, at: seq<nat>)
    requires entries != [] && Staying(key, entries[..|entries| - 1], at)
    ensures Staying(key, entries, if Stays(key, entries, |entries| - 1) then at + [|entries| - 1] else at)
  {
    var last := |entries| - 1;
    forall k: nat ensures Stays(key, entries, k) <==> k in at || (k == last && Stays(key, entries, last)) {
      StaysInit(key, entries, k);
    }
    AppendAscending(at, last);
  }

  /** `at` gives the position in `entries` of every element of `cleaned`. */
  predicate Picks(entries: seq<Entry>, at: seq<nat>, cleaned: seq<Entry>) {
    |at| == |cleaned| && forall i :: 0 <= i < |at| ==> at[i] < |entries| && cleaned[i] == entries[at[i]]
  }

  /** The cleaned list is the entries that stay, in their order. */
  lemma {:induction false} CleanKeepsOrder(key: PrimaryKey, entries: seq<Entry>) returns (at: seq<nat>)
    ensures Staying(key, entries, at) && Picks(entries, at, Clean(key, entries))
  {
    if entries == [] {
      at := [];
    } else {
      var last := |entries| - 1;
      at := CleanKeepsOrder(key, entries[..last]);
      StayingExtends(key, entries, at);
      PicksExtends(entries, at, Clean(key, entries[..last]));
      at := if Stays(key, entries, last) then at + [last] else at;
    }
  }

  lemma PicksExtends(entries: seq<Entry>, at: seq<nat>, cleaned: seq<Entry>)
    requires entries != [] && Picks(entries[..|entries| - 1], at, cleaned)
    ensures Picks(entries, at, cleaned)
    ensures Picks(entries, at + [|entries| - 1], cleaned + [entries[|entries| - 1]])
  {
    var init := entries[..|entries| - 1];
    assert forall j :: 0 <= j < |init| ==> init[j] == entries[j];
  }

  predicate DistinctPrimaries(key: PrimaryKey, entries: seq<Entry>) {
    forall i, j :: 0 <= i < j < |entries| ==> key(entries[i]) != key(entries[j])
  }

  predicate AllKeyed(key: PrimaryKey, entries: seq<Entry>) {
    forall i :: 0 <= i < |entries| ==> key(entries[i]).Some?
  }

  /** No two cleaned entries share a primary key, and every one has one. */
  lemma CleanIsDistinct(key: PrimaryKey, entries: seq<Entry>)
    ensures DistinctPrimaries(key, Clean(key, entries)) && AllKeyed(key, Clean(key, entries))
  {
    var at := CleanKeepsOrder(key, entries);
    var cleaned := Clean(key, entries);
    forall i | 0 <= i < |cleaned| ensures Stays(key, entries, at[i]) {
      assert at[i] in at;
    }
  }

  lemma {:induction false} DistinctIsClean(key: PrimaryKey, entries: seq<Entry>)
    requires DistinctPrimaries(key, entries) && AllKeyed(key, entries)
    ensures Clean(key, entries) == entries
  {
    if entries != [] {
      var init, last := entries[..|entries| - 1], entries[|entries| - 1];
      DistinctInit(key, entries);
      DistinctIsClean(key, init);
      assert entries == init + [last];
    }
  }

  lemma DistinctInit(key: PrimaryKey, entries: seq<Entry>)
    requires entries != [] && DistinctPrimaries(key, entries) && AllKeyed(key, entries)
    ensures var init := entries[..|entries| - 1];
            DistinctPrimaries(key, init) && AllKeyed(key, init) && Stays(key, entries, |entries| - 1)
  {
    var init := entries[..|entries| - 1];
    assert forall j :: 0 <= j < |init| ==> init[j] == entries[j];
  }

  /** Cleaning twice is cleaning once. */
  lemma CleanIdempotent(key: PrimaryKey, entries: seq<Entry>)
    ensures Clean(key, Clean(key, entries)) == Clean(key, entries)
  {
    CleanIsDistinct(key, entries);
    DistinctIsClean(key, Clean(key, entries));
  }

  lemma CleanMembers(key: PrimaryKey, entries: seq<Entry>)
    ensures forall e :: e in Clean(key, entries) ==> e in entries
  {
    var at := CleanKeepsOrder(key, entries);
    var cleaned := Clean(key, entries);
    forall e | e in cleaned ensures e in entries {
      var i :| 0 <= i < |cleaned| && cleaned[i] == e;
      assert entries[at[i]] == e;
    }
  }

  /** No primary key is lost. */
  lemma {:induction false} CleanKeepsPrimaries(key: PrimaryKey, entries: seq<Entry>)
    ensures Primaries(key, Clean(key, entries)) == Primaries(key, entries)
  {
    if entries != [] {
      var n := |entries| - 1;
      CleanKeepsPrimaries(key, entries[..n]);
      CleanStep(key, entries, n);
      assert entries[..n + 1] == entries;
      PrimariesAppend(key, Clean(key, entries[..n]), entries[n]);
    }
  }

  /** Cleaning never lists anyone new: a whitelist admits no one new and a blacklist bars no one new. */
  lemma CleanListsNobodyNew(t: Text, entries: seq<Entry>, user: set<string>)
    ensures IsListed(t, Clean(Primary(t), entries), user) ==> IsListed(t, entries, user)
    ensures IsAllowed(t, Whitelist, Clean(Primary(t), entries), user) ==> IsAllowed(t, Whitelist, entries, user)
    ensures IsAllowed(t, Blacklist, entries, user) ==> IsAllowed(t, Blacklist, Clean(Primary(t), entries), user)
  {
    CleanMembers(Primary(t), entries);
  }

  /** Whoever matches the primary key of some entry is still listed. */
  lemma PrimaryMatchSurvives(t: Text, entries: seq<Entry>, e: Entry, user: set<string>)
    requires e in entries && Primary(t)(e).Some? && Primary(t)(e).value in user
    ensures IsListed(t, Clean(Primary(t), entries), user)
  {
    CleanKeepsPrimaries(Primary(t), entries);
    var p := Primary(t)(e).value;
    assert p in Primaries(Primary(t), Clean(Primary(t), entries));
    var kept :| kept in Clean(Primary(t), entries) && Primary(t)(kept).Some? && Primary(t)(kept).value == p;
    assert EntryKeys(t, kept)[0] in EntryKeys(t, kept);
    assert Matches(t, kept, user);
  }

  /** An entry with a stable id keeps the user with that id listed, whatever became of handle and URL. */
  lemma StableIdSurvives(
    t: Text, entries: seq<Entry>, e: Entry, provider: string, subject: string, handle: string, url: string)
    requires e in entries && e.provider != "" && e.subject != ""
    requires t.trim(provider) != "" && t.trim(subject) != ""
    requires SubjectKey(t, t.trim(provider), t.trim(subject)) == SubjectKey(t, e.provider, e.subject)
    ensures IsListed(t, Clean(Primary(t), entries), UserKeys(t, provider, subject, handle, url))
  {
    PrimaryMatchSurvives(t, entries, e, UserKeys(t, provider, subject, handle, url));
  }

  ghost function AllKeys(t: Text, entries: seq<Entry>): set<string> {
    set e, k | e in entries && k in EntryKeys(t, e) :: k
  }

  /** Some entry that has no earlier twin carries the key. */
  ghost predicate StaysListed(t: Text, entries: seq<Entry>, k: string) {
    exists j: nat :: Stays(Primary(t), entries, j) && k in EntryKeys(t, entries[j])
  }

  /** Dropping the later of two twins loses no key: every key is carried by some entry without an earlier twin. */
  ghost predicate TwinsAddNoKey(t: Text, entries: seq<Entry>) {
    forall i: nat, k :: i < |entries| && k in EntryKeys(t, entries[i]) ==> StaysListed(t, entries, k)
  }

  /**
   Cleaning can drop the later of two entries with one primary key although its other keys differ. It
   changes nobody's standing exactly when no dropped twin carries a key of its own.
   */
  lemma CleanPreservesListingIff(t: Text, entries: seq<Entry>)
    ensures (forall user :: IsListed(t, Clean(Primary(t), entries), user) == IsListed(t, entries, user))
       <==> TwinsAddNoKey(t, entries)
  {
    KeysLostToTwins(t, entries);
    SameKeysSameStanding(t, entries);
  }

  lemma KeysLostToTwins(t: Text, entries: seq<Entry>)
    ensures TwinsAddNoKey(t, entries) <==> AllKeys(t, entries) <= AllKeys(t, Clean(Primary(t), entries))
  {
    var cleaned := Clean(Primary(t), entries);
    forall k ensures k in AllKeys(t, cleaned) <==> StaysListed(t, entries, k) {
      CleanedKeys(t, entries, k);
    }
    if AllKeys(t, entries) <= AllKeys(t, cleaned) {
      forall i: nat, k | i < |entries| && k in EntryKeys(t, entries[i]) ensures StaysListed(t, entries, k) {
        assert k in AllKeys(t, entries);
      }
    }
  }

  lemma SameKeysSameStanding(t: Text, entries: seq<Entry>)
    ensures (forall user :: IsListed(t, Clean(Primary(t), entries), user) == IsListed(t, entries, user))
       <==> AllKeys(t, entries) <= AllKeys(t, Clean(Primary(t), entries))
  {
    var cleaned := Clean(Primary(t), entries);
    if AllKeys(t, entries) <= AllKeys(t, cleaned) {
      forall user ensures IsListed(t, cleaned, user) == IsListed(t, entries, user) {
        CleanListsNobodyNew(t, entries, user);
        ListedByKey(t, entries, user);
        ListedByKey(t, cleaned, user);
      }
    }
    if forall user :: IsListed(t, cleaned, user) == IsListed(t, entries, user) {
      forall k | k in AllKeys(t, entries) ensures k in AllKeys(t, cleaned) {
        ListedByKey(t, entries, {k});
        ListedByKey(t, cleaned, {k});
        assert IsListed(t, cleaned, {k}) == IsListed(t, entries, {k});
      }
    }
  }

  lemma CleanedKeys(t: Text, entries: seq<Entry>, k: string)
    ensures k in AllKeys(t, Clean(Primary(t), entries)) <==> StaysListed(t, entries, k)
  {
    var cleaned := Clean(Primary(t), entries);
    var at := CleanKeepsOrder(Primary(t), entries);
    if k in AllKeys(t, cleaned) {
      var e :| e in cleaned && k in EntryKeys(t, e);
      var i :| 0 <= i < |cleaned| && cleaned[i] == e;
      assert at[i] in at;
      assert Stays(Primary(t), entries, at[i]);
    }
    if StaysListed(t, entries, k) {
      var j: nat :| Stays(Primary(t), entries, j) && k in EntryKeys(t, entries[j]);
      var i :| 0 <= i < |at| && at[i] == j;
      assert cleaned[i] in cleaned;
    }
  }

  lemma ListedByKey(t: Text, entries: seq<Entry>, user: set<string>)
    ensures IsListed(t, entries, user) <==> exists k :: k in AllKeys(t, entries) && k in user
  {
    if IsListed(t, entries, user) {
      var e :| e in entries && Matches(t, e, user);
      var k :| k in EntryKeys(t, e) && k in user;
      assert k in AllKeys(t, entries);
    }
    if k :| k in AllKeys(t, entries) && k in user {
      var e :| e in entries && k in EntryKeys(t, e);
      assert Matches(t, e, user);
    }
  }

  lemma KindsDiffer(t: Text, provider: string, subject: string, handle: string)
    ensures SubjectKey(t, provider, subject) != HandleKey(t, handle)
  {
    assert SubjectKey(t, provider, subject)[0] == 's';
    assert HandleKey(t, handle)[0] == 'h';
  }

  /**
   Two entries for one account under an old and a new handle: the later one is dropped and its handle with
   it. Another account that is signed in under the new handle is listed before cleaning and not after.
   */
  lemma RenamedHandleIsDropped(t: Text, account: Account, user: Account, oldHandle: string)
    requires account.provider != "" && account.subject != "" && oldHandle != "" && account.handle != ""
    requires t.trim(user.provider) != "" && t.trim(user.subject) != "" && t.trim(user.handle) != ""
    requires HandleKey(t, t.trim(user.handle)) == HandleKey(t, account.handle) != HandleKey(t, oldHandle)
    requires SubjectKey(t, t.trim(user.provider), t.trim(user.subject))
             != SubjectKey(t, account.provider, account.subject)
    ensures var keys := UserKeys(t, user.provider, user.subject, user.handle, "");
            var twins := Twins(account, oldHandle);
            IsListed(t, twins, keys) && !IsListed(t, Clean(Primary(t), twins), keys)
  {
    var (first, second) := (Twins(account, oldHandle)[0], Twins(account, oldHandle)[1]);
    var keys := UserKeys(t, user.provider, user.subject, user.handle, "");
    assert keys == {SubjectKey(t, t.trim(user.provider), t.trim(user.subject)), HandleKey(t, account.handle)};
    assert EntryKeys(t, second)[1] == HandleKey(t, account.handle);
    assert Matches(t, second, keys);
    KindsDiffer(t, account.provider, account.subject, account.handle);
    KindsDiffer(t, t.trim(user.provider), t.trim(user.subject), oldHandle);
    assert EntryKeys(t, first) == [SubjectKey(t, account.provider, account.subject), HandleKey(t, oldHandle)];
    assert !Matches(t, first, keys);
    SecondIsDropped(Primary(t), first, second);
  }

  /** What sign-in knows of an account without a profile URL. */
  datatype Account = Account(provider: string, subject: string, handle: string)

  /** An owner lists an account once under an old handle and once under the present one. */
  function Twins(account: Account, oldHandle: string): seq<Entry> {
    [Entry(account.provider, account.subject, oldHandle, "", ""),
     Entry(account.provider, account.subject, account.handle, "", "")]
  }

  /** A case of it in plain letters: the handle has passed from one account to another. */
  lemma PassedOnHandleLosesItsListing()
    ensures var t := Text(s => s, s => s, s => None);
            var keys := UserKeys(t, "misskey", "m2", "ann", "");
            var twins := Twins(Account("misskey", "m1", "ann"), "bob");
            IsListed(t, twins, keys) && !IsListed(t, Clean(Primary(t), twins), keys)
  {
    var t := Text(s => s, s => s, s => None);
    var (account, user) := (Account("misskey", "m1", "ann"), Account("misskey", "m2", "ann"));
    assert HandleKey(t, "ann")[7] == 'a' && HandleKey(t, "bob")[7] == 'b';
    assert SubjectKey(t, "misskey", "m1")[17] == '1' && SubjectKey(t, "misskey", "m2")[17] == '2';
    RenamedHandleIsDropped(t, account, user, "bob");
  }

  lemma SecondIsDropped(key: PrimaryKey, first: Entry, second: Entry)
    requires key(first).Some? && key(first) == key(second)
    ensures Clean(key, [first, second]) == [first]
  {
    var both := [first, second];
    assert both[..1] == [first] && [first][..0] == [];
    assert Clean(key, [first]) == [first];
    assert !Stays(key, both, 1);
    assert Clean(key, both) == Clean(key, both[..1]) + [];
  }

  // ---- who is meant by an entry --------------------------------------------------------------------

  lemma PrefixCancels(prefix: string, a: string, b: string)
    ensures prefix + a == prefix + b <==> a == b
  {
    assert (prefix + a)[|prefix|..] == a && (prefix + b)[|prefix|..] == b;
  }

  lemma NoColonInside(a: string, b: string, k: nat)
    requires ':' !in a
    ensures k < |a| ==> (a + ":" + b)[k] == a[k] != ':'
  {
  }

  lemma FirstColonSplits(a: string, b: string, a': string, b': string)
    requires ':' !in a && ':' !in a' && a + ":" + b == a' + ":" + b'
    ensures a == a' && b == b'
  {
    var (x, y) := (a + ":" + b, a' + ":" + b');
    NoColonInside(a, b, |a'|);
    NoColonInside(a', b', |a|);
    assert x[..|a|] == a && y[..|a|] == a';
    assert x[|a| + 1..] == b && y[|a| + 1..] == b';
  }

  /** The stable key tells accounts apart by provider and subject, as long as provider names have no colon. */
  lemma StableKeyIdentifies(t: Text, provider: string, subject: string, provider': string, subject': string)
    requires ':' !in t.lower(t.trim(provider)) && ':' !in t.lower(t.trim(provider'))
    ensures SubjectKey(t, provider, subject) == SubjectKey(t, provider', subject') <==>
            && t.lower(t.trim(provider)) == t.lower(t.trim(provider'))
            && t.lower(t.trim(subject)) == t.lower(t.trim(subject'))
  {
    var (p, s) := (t.lower(t.trim(provider)), t.lower(t.trim(subject)));
    var (p', s') := (t.lower(t.trim(provider')), t.lower(t.trim(subject')));
    assert SubjectKey(t, provider, subject) == "subject:" + (p + ":" + s);
    assert SubjectKey(t, provider', subject') == "subject:" + (p' + ":" + s');
    PrefixCancels("subject:", p + ":" + s, p' + ":" + s');
    if p + ":" + s == p' + ":" + s' {
      FirstColonSplits(p, s, p', s');
    }
  }

  /** What sign-in knows of a user. */
  datatype Person = Person(provider: string, subject: string, handle: string, profileURL: string)

  function KeysOf(t: Text, u: Person): set<string> {
    UserKeys(t, u.provider, u.subject, u.handle, u.profileURL)
  }

  predicate HasStableId(t: Text, u: Person, provider: string, subject: string) {
    && provider != "" && subject != "" && t.trim(u.provider) != "" && t.trim(u.subject) != ""
    && SubjectKey(t, t.trim(u.provider), t.trim(u.subject)) == SubjectKey(t, provider, subject)
  }

  predicate HasHandle(t: Text, u: Person, handle: string) {
    handle != "" && t.trim(u.handle) != "" && t.lower(t.trim(t.trim(u.handle))) == t.lower(t.trim(handle))
  }

  predicate HasProfile(t: Text, u: Person, url: string) {
    && url != "" && u.profileURL != ""
    && t.canonicalURL(url).Some? && t.canonicalURL(u.profileURL) == t.canonicalURL(url)
  }

  predicate IsLink(t: Text, s: string) {
    var l := t.lower(s);
    (|l| >= 7 && l[..7] == "http://") || (|l| >= 8 && l[..8] == "https://")
  }

  /** A handle as it was typed, with or without the leading sign. */
  function Typed(t: Text, s: string): string {
    t.trim(if s != "" && s[0] == '@' then s[1..] else s)
  }

  predicate IsTyped(t: Text, u: Person, raw: string) {
    var s := t.trim(raw);
    raw != "" && s != "" && if IsLink(t, s) then HasProfile(t, u, s) else HasHandle(t, u, Typed(t, s))
  }

  /** An entry that was never resolved to anything but what was typed. */
  predicate OnlyTyped(t: Text, e: Entry) {
    && !(e.provider != "" && e.subject != "") && e.handle == ""
    && (e.profileURL == "" || t.canonicalURL(e.profileURL).None?)
  }

  lemma UserKeyKinds(t: Text, u: Person, k: string)
    ensures k in KeysOf(t, u) <==>
            || (t.trim(u.provider) != "" && t.trim(u.subject) != ""
                && k == SubjectKey(t, t.trim(u.provider), t.trim(u.subject)))
            || (t.trim(u.handle) != "" && k == HandleKey(t, t.trim(u.handle)))
            || (u.profileURL != "" && t.canonicalURL(u.profileURL).Some?
                && k == "url:" + t.canonicalURL(u.profileURL).value)
  {
  }

  lemma StableKeyMatches(t: Text, u: Person, provider: string, subject: string)
    requires provider != "" && subject != ""
    ensures SubjectKey(t, provider, subject) in KeysOf(t, u) <==> HasStableId(t, u, provider, subject)
  {
    var k := SubjectKey(t, provider, subject);
    UserKeyKinds(t, u, k);
    assert k[0] == 's' && HandleKey(t, t.trim(u.handle))[0] == 'h';
    assert t.canonicalURL(u.profileURL).Some? ==> ("url:" + t.canonicalURL(u.profileURL).value)[0] == 'u';
  }

  lemma HandleKeyMatches(t: Text, u: Person, handle: string)
    requires handle != ""
    ensures HandleKey(t, handle) in KeysOf(t, u) <==> HasHandle(t, u, handle)
  {
    var k := HandleKey(t, handle);
    UserKeyKinds(t, u, k);
    assert k[0] == 'h' && SubjectKey(t, t.trim(u.provider), t.trim(u.subject))[0] == 's';
    assert t.canonicalURL(u.profileURL).Some? ==> ("url:" + t.canonicalURL(u.profileURL).value)[0] == 'u';
    PrefixCancels("handle:", t.lower(t.trim(handle)), t.lower(t.trim(t.trim(u.handle))));
  }

  lemma URLKeyMatches(t: Text, u: Person, url: string, canon: string)
    requires url != "" && t.canonicalURL(url) == Some(canon)
    ensures "url:" + canon in KeysOf(t, u) <==> HasProfile(t, u, url)
  {
    var k := "url:" + canon;
    UserKeyKinds(t, u, k);
    assert k[0] == 'u' && SubjectKey(t, t.trim(u.provider), t.trim(u.subject))[0] == 's';
    assert HandleKey(t, t.trim(u.handle))[0] == 'h';
    if t.canonicalURL(u.profileURL).Some? {
      PrefixCancels("url:", canon, t.canonicalURL(u.profileURL).value);
    }
  }

  lemma URLKeysMatch(t: Text, u: Person, url: string)
    requires url != ""
    ensures (exists k :: k in URLKeys(t, url) && k in KeysOf(t, u)) <==> HasProfile(t, u, url)
  {
    if t.canonicalURL(url).Some? {
      URLKeyMatches(t, u, url, t.canonicalURL(url).value);
      assert URLKeys(t, url)[0] == "url:" + t.canonicalURL(url).value;
    }
  }

  lemma RawKeysMatch(t: Text, u: Person, raw: string)
    requires raw != ""
    ensures (exists k :: k in RawKeys(t, raw) && k in KeysOf(t, u)) <==> IsTyped(t, u, raw)
  {
    var s := t.trim(raw);
    if s != "" && IsLink(t, s) {
      URLKeysMatch(t, u, s);
    } else if s != "" && Typed(t, s) != "" {
      HandleKeyMatches(t, u, Typed(t, s));
      assert RawKeys(t, raw)[0] == HandleKey(t, Typed(t, s));
    }
  }

  lemma ResolvedKeysMatch(t: Text, e: Entry, u: Person)
    requires !OnlyTyped(t, e)
    ensures Matches(t, e, KeysOf(t, u)) <==>
            HasStableId(t, u, e.provider, e.subject) || HasHandle(t, u, e.handle) || HasProfile(t, u, e.profileURL)
  {
    var ids := if e.provider != "" && e.subject != "" then [SubjectKey(t, e.provider, e.subject)] else [];
    var handles := if e.handle != "" then [HandleKey(t, e.handle)] else [];
    var urls := if e.profileURL != "" then URLKeys(t, e.profileURL) else [];
    assert EntryKeys(t, e) == ids + handles + urls;
    if ids != [] {
      StableKeyMatches(t, u, e.provider, e.subject);
      assert ids[0] in EntryKeys(t, e);
    }
    if handles != [] {
      HandleKeyMatches(t, u, e.handle);
      assert handles[0] in EntryKeys(t, e);
    }
    if e.profileURL != "" {
      URLKeysMatch(t, u, e.profileURL);
    }
  }

  /**
   Whom an entry means: whoever has its stable id, its handle or its profile URL, up to case and surrounding
   space; and when it was never resolved to any of these, whoever has the handle or profile that was typed.
   */
  lemma EntryMeans(t: Text, e: Entry, u: Person)
    ensures Matches(t, e, KeysOf(t, u)) <==>
            if OnlyTyped(t, e) then IsTyped(t, u, e.raw)
            else HasStableId(t, u, e.provider, e.subject) || HasHandle(t, u, e.handle) || HasProfile(t, u, e.profileURL)
  {
    if OnlyTyped(t, e) {
      if e.raw != "" {
        RawKeysMatch(t, u, e.raw);
      }
    } else {
      ResolvedKeysMatch(t, e, u);
    }
  }

  /** Entries are recognised as repeated by the stable id, then the handle, then the profile, then what was typed. */
  lemma PrimaryIsStrongest(t: Text, e: Entry)
    ensures e.provider != "" && e.subject != "" ==> Primary(t)(e) == Some(SubjectKey(t, e.provider, e.subject))
    ensures (e.provider == "" || e.subject == "") && e.handle != "" ==> Primary(t)(e) == Some(HandleKey(t, e.handle))
    ensures (e.provider == "" || e.subject == "") && e.handle == ""
            && e.profileURL != "" && t.canonicalURL(e.profileURL).Some?
            ==> Primary(t)(e) == Some("url:" + t.canonicalURL(e.profileURL).value)
    ensures OnlyTyped(t, e) && e.raw == "" ==> Primary(t)(e).None?
  {
  }
}
