/**
 The sorted set behind the "active users" of one channel: second-truncated scores, a key lifetime of
 twice the window, and cleanup on read. It answers like a plain last-seen map that never expires.
 */
module Presence {
  import opened Common

  type UserID = string

  /** The key's members with their scores, and the instant after which the key may vanish. */
  datatype Active = Active(scores: map<UserID, int>, expiresAt: Option<int>)

  /** time.Unix(): whole seconds, rounded down. */
  function Unix(t: int): int {
    t / SECOND
  }

  function Marked(a: Active, user: UserID, now: int, window: int): Active {
    Active(a.scores[user := Unix(now)], Some(now + 2 * window))
  }

  /** Redis drops a key with its last member, and the lifetime with it. */
  function Keep(a: Active, scores: map<UserID, int>): Active {
    Active(scores, if scores == map[] then None else a.expiresAt)
  }

  function Cleaned(a: Active, cutoff: int): Active {
    Keep(a, map u | u in a.scores && a.scores[u] >= cutoff :: a.scores[u])
  }

  function Cutoff(now: int, window: int): int {
    Unix(now - window)
  }

  class ActiveSet {
    const activeWindow: int
    var scores: map<UserID, int>
    var expiresAt: Option<int>

    ghost function View(): Active
      reads this
    {
      Active(scores, expiresAt)
    }

    constructor (window: int)
      ensures View() == Active(map[], None)
      ensures activeWindow == if window <= 0 then 30 * SECOND else window
    {
      activeWindow := if window <= 0 then 30 * SECOND else window;
      scores, expiresAt := map[], None;
    }

    method MarkActive(user: UserID, now: int)
      modifies this
      ensures View() == Marked(old(View()), user, now, activeWindow)
      ensures scores == old(scores)[user := now / 1_000_000_000] && expiresAt == Some(now + 2 * activeWindow)
    {
      scores := scores[user := Unix(now)];
      expiresAt := Some(now + 2 * activeWindow);
    }

    method RemoveActive(user: UserID)
      modifies this
      ensures View() == Keep(old(View()), old(scores) - {user})
      ensures scores == old(scores) - {user} && expiresAt == if scores == map[] then None else old(expiresAt)
    {
      scores := scores - {user};
      if scores == map[] {
        expiresAt := None;
      }
    }

    method ClearActive()
      modifies this
      ensures View() == Active(map[], None)
    {
      scores, expiresAt := map[], None;
    }

    /** Clean up what is older than the window, then return the rest. */
    method ActiveUserIDs(now: int) returns (ids: set<UserID>)
      modifies this
      ensures View() == Cleaned(old(View()), Cutoff(now, activeWindow))
      ensures ids == Answer(old(View()), now, activeWindow)
      ensures var cutoff := (now - activeWindow) / 1_000_000_000;
              && (forall u :: u in ids <==> u in old(scores) && cutoff <= old(scores)[u])
              && (forall u :: u in scores <==> u in ids) && forall u :: u in ids ==> scores[u] == old(scores)[u]
      ensures expiresAt == if scores == map[] then None else old(expiresAt)
    {
      var cutoff := Cutoff(now, activeWindow);
      scores := map u | u in scores && scores[u] >= cutoff :: scores[u];
      if scores == map[] {
        expiresAt := None;
      }
      ids := set u | u in scores && scores[u] >= cutoff;
    }
  }

  // ---- histories -------------------------------------------------------------------------------

  /** `KeyExpires` is the server dropping the key, at any moment its lifetime allows, or never. */
  datatype Op = Mark(user: UserID) | Remove(user: UserID) | Clear | Query | KeyExpires

  datatype Event = Event(op: Op, at: int)

  function Apply(a: Active, e: Event, window: int): Active {
    match e.op
    case Mark(user) => Marked(a, user, e.at, window)
    case Remove(user) => Keep(a, a.scores - {user})
    case Clear => Active(map[], None)
    case Query => Cleaned(a, Cutoff(e.at, window))
    case KeyExpires => if a.expiresAt.Some? && a.expiresAt.value <= e.at then Active(map[], None) else a
  }

  function Replay(a: Active, history: seq<Event>, window: int): Active {
    if history == [] then a
    else Apply(Replay(a, history[..|history| - 1], window), history[|history| - 1], window)
  }

  /** The reference: when each user was last seen, with no expiry and no cleanup. */
  function LastSeen(history: seq<Event>): map<UserID, int> {
    if history == [] then map[]
    else
      var seen := LastSeen(history[..|history| - 1]);
      var e := history[|history| - 1];
      match e.op
      case Mark(user) => seen[user := e.at]
      case Remove(user) => seen - {user}
      case Clear => map[]
      case _ => seen
  }

  predicate Ordered(history: seq<Event>) {
    forall i, j :: 0 <= i < j < |history| ==> history[i].at <= history[j].at
  }

  function Answer(a: Active, now: int, window: int): set<UserID> {
    set u | u in a.scores && a.scores[u] >= Cutoff(now, window)
  }

  /** Seen within the window, at the resolution of whole seconds. */
  predicate SeenRecently(lastSeen: int, now: int, window: int) {
    Unix(now) - Unix(lastSeen) <= window / SECOND
  }

  predicate WholeSecondWindow(window: int) {
    window >= SECOND && window % SECOND == 0
  }

  lemma CutoffIsWindowAgo(now: int, window: int)
    requires WholeSecondWindow(window)
    ensures Cutoff(now, window) == Unix(now) - window / SECOND
  {
    var w := window / SECOND;
    assert window == w * SECOND;
    assert now - window == (Unix(now) - w) * SECOND + now % SECOND;
  }

  /** What the key holds is what was seen; what it lost had left the window for good. */
  predicate Mirrors(a: Active, seen: map<UserID, int>, clock: int, window: int) {
    && (forall u :: u in a.scores ==> u in seen && a.scores[u] == Unix(seen[u]))
    && (forall u :: u in seen ==> seen[u] <= clock && (u in a.scores || !SeenRecently(seen[u], clock, window)))
    && (a.scores != map[] ==> a.expiresAt.Some?)
    && (a.expiresAt.Some? ==> forall u :: u in a.scores ==> seen[u] + 2 * window <= a.expiresAt.value)
  }

  lemma OldStaysOld(lastSeen: int, clock: int, later: int, window: int)
    requires clock <= later && !SeenRecently(lastSeen, clock, window)
    ensures !SeenRecently(lastSeen, later, window)
  {
  }

  lemma BeyondLifetimeIsOld(lastSeen: int, now: int, window: int)
    requires WholeSecondWindow(window) && lastSeen + 2 * window <= now
    ensures !SeenRecently(lastSeen, now, window)
  {
    var w := window / SECOND;
    assert window == w * SECOND;
    assert Unix(lastSeen + 2 * window) == Unix(lastSeen) + 2 * w by {
      assert lastSeen + 2 * window == (Unix(lastSeen) + 2 * w) * SECOND + lastSeen % SECOND;
    }
  }

  lemma StepMirrors(a: Active, seen: map<UserID, int>, clock: int, window: int, e: Event, seen': map<UserID, int>)
    requires WholeSecondWindow(window) && Mirrors(a, seen, clock, window) && clock <= e.at
    requires seen' == match e.op
                      case Mark(user) => seen[user := e.at]
                      case Remove(user) => seen - {user}
                      case Clear => map[]
                      case _ => seen
    ensures Mirrors(Apply(a, e, window), seen', e.at, window)
  {
    forall u | u in seen && u !in a.scores ensures !SeenRecently(seen[u], e.at, window) {
      OldStaysOld(seen[u], clock, e.at, window);
    }
    match e.op
    case Mark(user) =>
    case Remove(user) =>
    case Clear =>
    case Query => CutoffIsWindowAgo(e.at, window);
    case KeyExpires =>
      if a.expiresAt.Some? && a.expiresAt.value <= e.at {
        forall u | u in a.scores ensures !SeenRecently(seen[u], e.at, window) {
          BeyondLifetimeIsOld(seen[u], e.at, window);
        }
      }
  }

  lemma {:induction false} ReplayMirrors(history: seq<Event>, window: int)
    requires WholeSecondWindow(window) && Ordered(history)
    ensures history == [] ==> Mirrors(Active(map[], None), LastSeen(history), 0, window)
    ensures history != [] ==>
              var a := Replay(Active(map[], None), history, window);
              Mirrors(a, LastSeen(history), history[|history| - 1].at, window)
  {
    if history != [] {
      var k := |history| - 1;
      ReplayMirrors(history[..k], window);
      var clock := if k == 0 then history[0].at else history[k - 1].at;
      var a := Replay(Active(map[], None), history[..k], window);
      assert Mirrors(a, LastSeen(history[..k]), clock, window);
      StepMirrors(a, LastSeen(history[..k]), clock, window, history[k], LastSeen(history));
    }
  }

  /**
   After every history of marks, removals, clears, reads and key expiries, a read returns exactly the
   users whom the never-expiring map has seen within the window.
   */
  lemma AnswersLikeLastSeenMap(history: seq<Event>, now: int, window: int)
    requires WholeSecondWindow(window) && Ordered(history)
    requires history != [] ==> history[|history| - 1].at <= now
    ensures var seen := LastSeen(history);
            Answer(Replay(Active(map[], None), history, window), now, window) ==
            set u | u in seen && SeenRecently(seen[u], now, window)
  {
    ReplayMirrors(history, window);
    CutoffIsWindowAgo(now, window);
    var seen := LastSeen(history);
    if history != [] {
      forall u | u in seen && !SeenRecently(seen[u], history[|history| - 1].at, window)
        ensures !SeenRecently(seen[u], now, window)
      {
        OldStaysOld(seen[u], history[|history| - 1].at, now, window);
      }
    }
  }

  /** A one-second slack is all the truncation costs: no one seen within the window is missed. */
  lemma SeenRecentlyBounds(lastSeen: int, now: int, window: int)
    requires WholeSecondWindow(window) && lastSeen <= now
    ensures now - lastSeen <= window ==> SeenRecently(lastSeen, now, window)
    ensures SeenRecently(lastSeen, now, window) ==> now - lastSeen < window + SECOND
  {
    var w := window / SECOND;
    assert window == w * SECOND;
    if now - lastSeen <= window {
      assert Unix(now) * SECOND <= now <= lastSeen + w * SECOND < (Unix(lastSeen) + 1 + w) * SECOND;
    }
  }

  // ---- configuration ---------------------------------------------------------------------------

  const MIN_BEACON_SECONDS: int := 5
  const MAX_BEACON_SECONDS: int := 60
  const DEFAULT_BEACON_SECONDS: int := 10
  const DEFAULT_ACTIVE_WINDOW_SECONDS: int := 30
  const MAX_ACTIVE_WINDOW_SECONDS: int := 300
  const ACTIVE_WINDOW_BEACON_FACTOR: int := 3

  /** An environment value is None when unset or not a number. */
  function ClampEnvInt(value: Option<int>, fallback: int, minValue: int, maxValue: int): (n: int)
    requires minValue <= maxValue
    ensures minValue <= n <= maxValue
    ensures minValue <= value.GetOr(fallback) <= maxValue ==> n == value.GetOr(fallback)
    ensures value.GetOr(fallback) < minValue ==> n == minValue
    ensures value.GetOr(fallback) > maxValue ==> n == maxValue
  {
    var n := value.GetOr(fallback);
    if n < minValue then minValue else if n > maxValue then maxValue else n
  }

  method LoadIntervals(beaconEnv: Option<int>, windowEnv: Option<int>) returns (beaconSeconds: int, activeWindow: int)
    ensures MIN_BEACON_SECONDS <= beaconSeconds <= MAX_BEACON_SECONDS
    ensures WholeSecondWindow(activeWindow)
    ensures 3 * beaconSeconds * SECOND <= activeWindow <= 300 * SECOND
    ensures windowEnv.Some? && 3 * beaconSeconds <= windowEnv.value <= 300 ==> activeWindow == windowEnv.value * SECOND
    ensures windowEnv.GetOr(30) <= 3 * beaconSeconds ==> activeWindow == 3 * beaconSeconds * SECOND
    ensures windowEnv.GetOr(30) >= 300 ==> activeWindow == 300 * SECOND
    ensures beaconEnv.None? ==> beaconSeconds == DEFAULT_BEACON_SECONDS
    ensures beaconEnv.Some? ==>
              if beaconEnv.value < MIN_BEACON_SECONDS then beaconSeconds == MIN_BEACON_SECONDS
              else if beaconEnv.value > MAX_BEACON_SECONDS then beaconSeconds == MAX_BEACON_SECONDS
              else beaconSeconds == beaconEnv.value
  {
    beaconSeconds := ClampEnvInt(beaconEnv, DEFAULT_BEACON_SECONDS, MIN_BEACON_SECONDS, MAX_BEACON_SECONDS);
    var windowSeconds := ClampEnvInt(windowEnv, DEFAULT_ACTIVE_WINDOW_SECONDS, 1, MAX_ACTIVE_WINDOW_SECONDS);
    var minWindowSeconds := beaconSeconds * ACTIVE_WINDOW_BEACON_FACTOR;
    if windowSeconds < minWindowSeconds {
      windowSeconds := minWindowSeconds;
    }
    activeWindow := windowSeconds * SECOND;
  }

  /** The user was marked at `i` and neither removed nor cleared since. */
  predicate MarkedSince(history: seq<Event>, user: UserID, i: nat) {
    && i < |history| && history[i].op == Mark(user)
    && forall j :: i < j < |history| ==> history[j].op != Remove(user) && history[j].op != Clear
  }

  lemma {:induction false} MarkIsRemembered(history: seq<Event>, user: UserID, i: nat)
    requires Ordered(history) && MarkedSince(history, user, i)
    ensures user in LastSeen(history) && history[i].at <= LastSeen(history)[user] <= history[|history| - 1].at
  {
    var k := |history| - 1;
    if i < k {
      var shorter := history[..k];
      assert MarkedSince(shorter, user, i) by {
        forall j | i < j < |shorter| ensures shorter[j].op != Remove(user) && shorter[j].op != Clear {
          assert history[j] == shorter[j];
        }
      }
      MarkIsRemembered(shorter, user, i);
    }
  }

  /**
   With any loadable configuration, a user who keeps marking at least once in every three beacon
   intervals, and is not removed, is in the answer of every query.
   */
  lemma BeaconingUserIsAlwaysActive(
    history: seq<Event>, user: UserID, i: nat, now: int, beaconSeconds: int, window: int)
    requires WholeSecondWindow(window) && 3 * beaconSeconds * SECOND <= window
    requires Ordered(history) && MarkedSince(history, user, i) && history[|history| - 1].at <= now
    requires now - history[i].at <= 3 * beaconSeconds * SECOND
    ensures user in Answer(Replay(Active(map[], None), history, window), now, window)
  {
    MarkIsRemembered(history, user, i);
    AnswersLikeLastSeenMap(history, now, window);
    SeenRecentlyBounds(LastSeen(history)[user], now, window);
  }
}
