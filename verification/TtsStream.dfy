/**
 Reassembly of a message's speech parts, which arrive in any order around the notice of how many there
 are. What reaches the audio queue is always the longest contiguous prefix received so far.
 */
module TtsStream {
  import opened Common
  import opened Sorting

  /** Only the identity of messages and audio files matters here. */
  type MessageID = nat
  type Url = nat

  datatype Pending = Pending(partCount: Option<nat>, nextIndex: nat, parts: map<nat, Url>)

  datatype Part = Part(index: nat, url: Url)

  /** One item handed to the audio queue. */
  datatype Clip = Clip(message: MessageID, url: Url)

  datatype Player = Player(pending: map<MessageID, Pending>, queue: seq<Clip>)

  // ---- one message's entry ---------------------------------------------------------------------

  /** The urls of consecutive indexes from `from` on. */
  function Ready(parts: map<nat, Url>, from: nat): seq<Url>
    decreases |parts|
  {
    if from in parts then
      assert (parts - {from}).Keys == parts.Keys - {from};
      [parts[from]] + Ready(parts - {from}, from + 1)
    else []
  }

  function Rest(parts: map<nat, Url>, from: nat): map<nat, Url>
    decreases |parts|
  {
    if from in parts then
      assert (parts - {from}).Keys == parts.Keys - {from};
      Rest(parts - {from}, from + 1)
    else parts
  }

  /** The entry after its contiguous parts were handed over. */
  function Drained(p: Pending): Pending {
    Pending(p.partCount, p.nextIndex + |Ready(p.parts, p.nextIndex)|, Rest(p.parts, p.nextIndex))
  }

  predicate Complete(p: Pending) {
    p.partCount.Some? && p.nextIndex >= p.partCount.value
  }

  function Clips(m: MessageID, urls: seq<Url>): seq<Clip> {
    seq(|urls|, i requires 0 <= i < |urls| => Clip(m, urls[i]))
  }

  /** flushReadyTTSParts. */
  function Flush(s: Player, m: MessageID, p: Pending): Player {
    var d := Drained(p);
    Player(if Complete(d) then s.pending - {m} else s.pending[m := d],
           s.queue + Clips(m, Ready(p.parts, p.nextIndex)))
  }

  function Queued(s: Player, m: MessageID, partCount: nat): Player {
    if m in s.pending then Flush(s, m, s.pending[m].(partCount := Some(partCount)))
    else s.(pending := s.pending[m := Pending(Some(partCount), 0, map[])])
  }

  function PartReady(s: Player, m: MessageID, index: nat, url: Url): Player {
    var p := if m in s.pending then s.pending[m] else Pending(None, 0, map[]);
    Flush(s, m, p.(parts := p.parts[index := url]))
  }

  function Filter(parts: seq<Part>, from: nat): seq<Part> {
    if parts == [] then []
    else (if parts[0].index >= from then [parts[0]] else []) + Filter(parts[1..], from)
  }

  function Urls(parts: seq<Part>): seq<Url> {
    seq(|parts|, i requires 0 <= i < |parts| => parts[i].url)
  }

  function Index(): Part -> int {
    (p: Part) => p.index
  }

  /** tts_ready: whatever was not handed over yet, in index order. */
  function AllReady(s: Player, m: MessageID, parts: seq<Part>): Player {
    var nextIndex := if m in s.pending then s.pending[m].nextIndex else 0;
    Player(s.pending - {m}, s.queue + Clips(m, Urls(SortBy(Filter(parts, nextIndex), Index()))))
  }

  // ---- the handlers ----------------------------------------------------------------------------

  class TtsPlayer {
    var pending: map<MessageID, Pending>
    var queue: seq<Clip>

    ghost function View(): Player
      reads this
    {
      Player(pending, queue)
    }

    constructor ()
      ensures View() == Player(map[], [])
    {
      pending, queue := map[], [];
    }

    method EnqueueAudio(m: MessageID, urls: seq<Url>)
      modifies this`queue
      ensures queue == old(queue) + Clips(m, urls)
    {
      for i := 0 to |urls|
        invariant queue == old(queue) + Clips(m, urls[..i])
      {
        assert Clips(m, urls[..i + 1]) == Clips(m, urls[..i]) + [Clip(m, urls[i])];
        queue := queue + [Clip(m, urls[i])];
      }
      assert urls[..|urls|] == urls;
    }

    /** The loop of flushReadyTTSParts: take the part at the next index while it is there. */
    static method TakeReady(p: Pending) returns (readyUrls: seq<Url>, drained: Pending)
      ensures readyUrls == Ready(p.parts, p.nextIndex) && drained == Drained(p)
    {
      readyUrls := [];
      var parts, nextIndex := p.parts, p.nextIndex;
      while nextIndex in parts
        invariant p.nextIndex + |readyUrls| == nextIndex
        invariant readyUrls + Ready(parts, nextIndex) == Ready(p.parts, p.nextIndex)
        invariant Rest(parts, nextIndex) == Rest(p.parts, p.nextIndex)
        decreases |parts|
      {
        assert (parts - {nextIndex}).Keys == parts.Keys - {nextIndex};
        readyUrls := readyUrls + [parts[nextIndex]];
        parts := parts - {nextIndex};
        nextIndex := nextIndex + 1;
      }
      drained := Pending(p.partCount, nextIndex, parts);
    }

    /** flushReadyTTSParts, which also writes the entry back unless everything has been handed over. */
    method FlushReadyTTSParts(m: MessageID, p: Pending)
      modifies this
      ensures View() == Flush(old(View()), m, p)
    {
      var readyUrls, drained := TakeReady(p);
      if |readyUrls| > 0 {
        EnqueueAudio(m, readyUrls);
      }
      pending := pending[m := drained];
      if drained.partCount.Some? && drained.nextIndex >= drained.partCount.value {
        pending := pending - {m};
      }
    }

    method HandleTTSQueued(m: MessageID, partCount: nat)
      modifies this
      ensures View() == Queued(old(View()), m, partCount)
    {
      if m in pending {
        FlushReadyTTSParts(m, pending[m].(partCount := Some(partCount)));
        return;
      }
      pending := pending[m := Pending(Some(partCount), 0, map[])];
    }

    method HandleTTSPartReady(m: MessageID, index: nat, url: Url)
      modifies this
      ensures View() == PartReady(old(View()), m, index, url)
    {
      var p := if m in pending then pending[m] else Pending(None, 0, map[]);
      FlushReadyTTSParts(m, p.(parts := p.parts[index := url]));
    }

    static method PartsFromIndex(parts: seq<Part>, nextIndex: nat) returns (kept: seq<Part>)
      ensures kept == Filter(parts, nextIndex)
    {
      kept := [];
      for i := 0 to |parts|
        invariant kept + Filter(parts[i..], nextIndex) == Filter(parts, nextIndex)
      {
        assert parts[i..][1..] == parts[i + 1..];
        if parts[i].index >= nextIndex {
          kept := kept + [parts[i]];
        }
      }
      assert parts[|parts|..] == [];
    }

    method HandleTTSReady(m: MessageID, parts: seq<Part>)
      modifies this
      ensures View() == AllReady(old(View()), m, parts)
    {
      var nextIndex := if m in pending then pending[m].nextIndex else 0;
      pending := pending - {m};
      var kept := PartsFromIndex(parts, nextIndex);
      EnqueueAudio(m, Urls(SortBy(kept, Index())));
    }
  }

  // ---- histories -------------------------------------------------------------------------------

  datatype Event = QueuedEvent(message: MessageID, partCount: nat) | PartEvent(message: MessageID, index: nat, url: Url)

  function Step(s: Player, e: Event): Player {
    match e
    case QueuedEvent(m, n) => Queued(s, m, n)
    case PartEvent(m, index, url) => PartReady(s, m, index, url)
  }

  function Play(history: seq<Event>): Player {
    if history == [] then Player(map[], [])
    else Step(Play(history[..|history| - 1]), history[|history| - 1])
  }

  /** The parts of `m` received so far. */
  function Received(history: seq<Event>, m: MessageID): map<nat, Url> {
    if history == [] then map[]
    else
      var before := Received(history[..|history| - 1], m);
      var e := history[|history| - 1];
      if e.PartEvent? && e.message == m then before[e.index := e.url] else before
  }

  function Announced(history: seq<Event>, m: MessageID): Option<nat> {
    if history == [] then None
    else
      var e := history[|history| - 1];
      if e.QueuedEvent? && e.message == m then Some(e.partCount) else Announced(history[..|history| - 1], m)
  }

  /** Per message: announced at most once, every part at most once, and every index below the announced count. */
  predicate WellFormed(history: seq<Event>) {
    && (forall i, j :: 0 <= i < j < |history| ==> !Clash(history[i], history[j]))
    && (forall i, j :: 0 <= i < |history| && 0 <= j < |history| ==> !OutOfRange(history[i], history[j]))
  }

  predicate Clash(a: Event, b: Event) {
    a.message == b.message &&
    match (a, b)
    case (QueuedEvent(_, _), QueuedEvent(_, _)) => true
    case (PartEvent(_, i, _), PartEvent(_, j, _)) => i == j
    case _ => false
  }

  predicate OutOfRange(a: Event, b: Event) {
    a.message == b.message && a.QueuedEvent? && b.PartEvent? && b.index >= a.partCount
  }

  /** What was handed to the audio queue for `m`, in order. */
  function Heard(queue: seq<Clip>, m: MessageID): seq<Url> {
    if queue == [] then []
    else Heard(queue[..|queue| - 1], m) + if queue[|queue| - 1].message == m then [queue[|queue| - 1].url] else []
  }

  predicate HasAll(parts: map<nat, Url>, n: nat) {
    forall i: nat :: i < n ==> i in parts
  }

  predicate ContiguousTo(parts: map<nat, Url>, k: nat) {
    HasAll(parts, k) && k !in parts
  }

  function FirstParts(parts: map<nat, Url>, k: nat): seq<Url>
    requires HasAll(parts, k)
  {
    seq(k, i requires 0 <= i < k => parts[i])
  }

  // Facts about draining one entry.

  lemma {:induction false} ReadyIsContiguous(parts: map<nat, Url>, from: nat)
    ensures var k := from + |Ready(parts, from)|;
            && (forall i: nat :: from <= i < k ==> i in parts && Ready(parts, from)[i - from] == parts[i])
            && k !in parts
    decreases |parts|
  {
    if from in parts {
      var child := parts - {from};
      assert child.Keys == parts.Keys - {from};
      ReadyIsContiguous(child, from + 1);
      ReadyUnfolds(parts, child, from);
      var rest := Ready(child, from + 1);
      forall i: nat | from < i < from + 1 + |rest| ensures i in parts && Ready(parts, from)[i - from] == parts[i] {
        assert i in child && rest[i - (from + 1)] == child[i];
      }
    }
  }

  lemma ReadyUnfolds(parts: map<nat, Url>, child: map<nat, Url>, from: nat)
    requires from in parts && child == parts - {from}
    ensures Ready(parts, from) == [parts[from]] + Ready(child, from + 1)
    ensures Rest(parts, from) == Rest(child, from + 1)
  {
  }

  lemma {:induction false} RestIsWhatIsNotReady(parts: map<nat, Url>, from: nat)
    ensures var k := from + |Ready(parts, from)|;
            Rest(parts, from) == map i | i in parts && !(from <= i < k) :: parts[i]
    decreases |parts|
  {
    if from in parts {
      var child := parts - {from};
      assert child.Keys == parts.Keys - {from};
      RestIsWhatIsNotReady(child, from + 1);
      ReadyUnfolds(parts, child, from);
    }
  }

  lemma {:induction false} HeardAppend(queue: seq<Clip>, m: MessageID, urls: seq<Url>, other: MessageID)
    ensures Heard(queue + Clips(m, urls), other)
         == if other == m then Heard(queue, other) + urls else Heard(queue, other)
  {
    var all := queue + Clips(m, urls);
    if urls == [] {
      assert all == queue;
    } else {
      var k := |urls| - 1;
      HeardAppend(queue, m, urls[..k], other);
      assert all[..|all| - 1] == queue + Clips(m, urls[..k]);
      assert all[|all| - 1] == Clip(m, urls[k]);
      assert urls == urls[..k] + [urls[k]];
    }
  }

  /** The state of one message: heard so far, and an entry exactly while something is outstanding. */
  ghost predicate InStep(s: Player, m: MessageID, parts: map<nat, Url>, announced: Option<nat>, k: nat) {
    && ContiguousTo(parts, k)
    && Heard(s.queue, m) == FirstParts(parts, k)
    && (m in s.pending ==> s.pending[m] == Pending(announced, k, map i | i in parts && i >= k :: parts[i]))
    && (m in s.pending <==> (parts != map[] || announced.Some?) && !AllHeard(announced, k))
  }

  /** Every announced part has been heard; a message announced with no parts never gets there. */
  predicate AllHeard(announced: Option<nat>, k: nat) {
    announced.Some? && announced.value > 0 && k >= announced.value
  }

  lemma FirstPartsExtend(parts: map<nat, Url>, k: nat, later: map<nat, Url>, ready: seq<Url>)
    requires HasAll(parts, k) && later == map i | i in parts && i >= k :: parts[i]
    requires forall i: nat :: k <= i < k + |ready| ==> i in later && ready[i - k] == later[i]
    ensures HasAll(parts, k + |ready|) && FirstParts(parts, k) + ready == FirstParts(parts, k + |ready|)
  {
    forall i: nat | i < k + |ready| ensures i in parts && (FirstParts(parts, k) + ready)[i] == parts[i] {
      assert i >= k ==> i in later;
    }
  }

  lemma LaterThanReady(parts: map<nat, Url>, k: nat, k': nat)
    requires k <= k'
    ensures var later := map i | i in parts && i >= k :: parts[i];
            (map i | i in later && !(k <= i < k') :: later[i]) == map i | i in parts && i >= k' :: parts[i]
  {
  }

  lemma FlushKeepsStep(s: Player, m: MessageID, parts: map<nat, Url>, announced: Option<nat>, k: nat, p: Pending)
    returns (k': nat)
    requires HasAll(parts, k) && Heard(s.queue, m) == FirstParts(parts, k)
    requires p == Pending(announced, k, map i | i in parts && i >= k :: parts[i])
    requires parts != map[]
    requires announced.Some? ==> Below(parts, announced.value)
    ensures InStep(Flush(s, m, p), m, parts, announced, k')
  {
    var ready := Ready(p.parts, k);
    ReadyIsContiguous(p.parts, k);
    RestIsWhatIsNotReady(p.parts, k);
    k' := k + |ready|;
    HeardAppend(s.queue, m, ready, m);
    FirstPartsExtend(parts, k, p.parts, ready);
    LaterThanReady(parts, k, k');
    var some :| some in parts;
  }

  lemma OthersUndisturbed(s: Player, e: Event, m: MessageID)
    requires e.message != m
    ensures var s' := Step(s, e);
            && Heard(s'.queue, m) == Heard(s.queue, m)
            && (m in s'.pending <==> m in s.pending)
            && (m in s.pending ==> s'.pending[m] == s.pending[m])
  {
    var p := match e
      case QueuedEvent(em, n) =>
        if em in s.pending then s.pending[em].(partCount := Some(n)) else Pending(None, 0, map[])
      case PartEvent(em, index, url) =>
        var p := if em in s.pending then s.pending[em] else Pending(None, 0, map[]);
        p.(parts := p.parts[index := url]);
    HeardAppend(s.queue, e.message, Ready(p.parts, p.nextIndex), m);
  }

  // Facts about histories.

  predicate Below(parts: map<nat, Url>, n: nat) {
    forall i :: i in parts ==> i < n
  }

  lemma {:induction false} NotAnnounced(history: seq<Event>, m: MessageID)
    requires forall j :: 0 <= j < |history| ==> !(history[j].QueuedEvent? && history[j].message == m)
    ensures Announced(history, m).None?
  {
    if history != [] {
      NotAnnounced(history[..|history| - 1], m);
    }
  }

  lemma {:induction false} NotReceived(history: seq<Event>, m: MessageID, i: nat)
    requires forall j :: 0 <= j < |history| ==>
               !(history[j].PartEvent? && history[j].message == m && history[j].index == i)
    ensures i !in Received(history, m)
  {
    if history != [] {
      NotReceived(history[..|history| - 1], m, i);
    }
  }

  lemma {:induction false} ReceivedBelow(history: seq<Event>, m: MessageID, n: nat)
    requires forall j :: 0 <= j < |history| && history[j].PartEvent? && history[j].message == m ==> history[j].index < n
    ensures Below(Received(history, m), n)
  {
    if history != [] {
      ReceivedBelow(history[..|history| - 1], m, n);
    }
  }

  lemma {:induction false} AnnouncedCameFromEvents(history: seq<Event>, m: MessageID)
    requires Announced(history, m).Some?
    ensures exists j :: 0 <= j < |history| && history[j] == QueuedEvent(m, Announced(history, m).value)
  {
    var n := |history| - 1;
    var e := history[n];
    if e.QueuedEvent? && e.message == m {
      assert history[n] == QueuedEvent(m, Announced(history, m).value);
    } else {
      AnnouncedCameFromEvents(history[..n], m);
      var j :| 0 <= j < n && history[..n][j] == QueuedEvent(m, Announced(history[..n], m).value);
      assert history[j] == history[..n][j];
    }
  }

  lemma WellFormedPrefix(history: seq<Event>)
    requires WellFormed(history) && history != []
    ensures WellFormed(history[..|history| - 1])
  {
    var before := history[..|history| - 1];
    forall i, j | 0 <= i < j < |before| ensures !Clash(before[i], before[j]) {
      assert !Clash(history[i], history[j]);
    }
    forall i, j | 0 <= i < |before| && 0 <= j < |before| ensures !OutOfRange(before[i], before[j]) {
      assert !OutOfRange(history[i], history[j]);
    }
  }

  lemma IndexesBelowCount(history: seq<Event>, m: MessageID)
    requires WellFormed(history) && Announced(history, m).Some?
    ensures Below(Received(history, m), Announced(history, m).value)
  {
    AnnouncedCameFromEvents(history, m);
    var n := Announced(history, m).value;
    var a :| 0 <= a < |history| && history[a] == QueuedEvent(m, n);
    assert forall j :: 0 <= j < |history| ==> !OutOfRange(history[a], history[j]);
    ReceivedBelow(history, m, n);
  }

  /** A well-formed history never repeats itself in its last event. */
  lemma LastEventIsNew(history: seq<Event>)
    requires WellFormed(history) && history != []
    ensures var (before, e) := (history[..|history| - 1], history[|history| - 1]);
            && (e.QueuedEvent? ==> Announced(before, e.message).None?)
            && (e.PartEvent? ==> e.index !in Received(before, e.message))
  {
    var (before, e) := (history[..|history| - 1], history[|history| - 1]);
    assert forall j :: 0 <= j < |before| ==> !Clash(before[j], e) by {
      assert forall j :: 0 <= j < |before| ==> !Clash(history[j], history[|history| - 1]);
    }
    if e.QueuedEvent? {
      NotAnnounced(before, e.message);
    } else {
      NotReceived(before, e.message, e.index);
    }
  }

  lemma QueuedKeepsStep(s: Player, m: MessageID, parts: map<nat, Url>, k: nat, n: nat) returns (k': nat)
    requires InStep(s, m, parts, None, k) && Below(parts, n)
    ensures InStep(Queued(s, m, n), m, parts, Some(n), k')
  {
    if m in s.pending {
      k' := FlushKeepsStep(s, m, parts, Some(n), k, s.pending[m].(partCount := Some(n)));
    } else {
      assert k > 0 ==> 0 in parts;
      k' := k;
    }
  }

  lemma PartKeepsStep(
    s: Player, m: MessageID, parts: map<nat, Url>, announced: Option<nat>, k: nat, index: nat, url: Url)
    returns (k': nat)
    requires InStep(s, m, parts, announced, k) && index !in parts
    requires announced.Some? ==> Below(parts[index := url], announced.value)
    ensures InStep(PartReady(s, m, index, url), m, parts[index := url], announced, k')
  {
    var parts' := parts[index := url];
    assert index in parts' && index >= k;
    assert m !in s.pending && k > 0 ==> 0 in parts;
    var p := if m in s.pending then s.pending[m] else Pending(None, 0, map[]);
    assert FirstParts(parts', k) == FirstParts(parts, k);
    assert p.parts[index := url] == map i | i in parts' && i >= k :: parts'[i];
    k' := FlushKeepsStep(s, m, parts', announced, k, p.(parts := p.parts[index := url]));
  }

  /**
   After every well-formed history over any number of messages, what was handed over for `m` is the
   longest contiguous prefix received, in order and once, and `m` has an entry exactly while something
   has arrived and not all announced parts have.
   */
  lemma {:induction false} HeardIsLongestPrefix(history: seq<Event>, m: MessageID) returns (k: nat)
    requires WellFormed(history)
    ensures InStep(Play(history), m, Received(history, m), Announced(history, m), k)
  {
    if history == [] {
      k := 0;
    } else {
      var (before, e) := (history[..|history| - 1], history[|history| - 1]);
      WellFormedPrefix(history);
      k := HeardIsLongestPrefix(before, m);
      if Announced(history, m).Some? {
        IndexesBelowCount(history, m);
      }
      if e.message != m {
        OthersUndisturbed(Play(before), e, m);
      } else {
        LastEventIsNew(history);
        match e
        case QueuedEvent(_, n) => k := QueuedKeepsStep(Play(before), m, Received(before, m), k, n);
        case PartEvent(_, index, url) =>
          k := PartKeepsStep(Play(before), m, Received(before, m), Announced(before, m), k, index, url);
      }
    }
  }

  /** Once every one of the n >= 1 announced parts has arrived, all were heard in order and the entry is gone. */
  lemma AllArrivedAllHeard(history: seq<Event>, m: MessageID, n: nat)
    requires WellFormed(history) && Announced(history, m) == Some(n)
    requires forall i: nat :: i in Received(history, m) <==> i < n
    ensures Heard(Play(history).queue, m) == FirstParts(Received(history, m), n)
    ensures m in Play(history).pending <==> n == 0
  {
    var k := HeardIsLongestPrefix(history, m);
    assert n !in Received(history, m);
    assert k < n ==> k in Received(history, m);
  }

  // The order of messages in the queue.

  /** What is in the queue stays there in its order; an event adds at the end, and clips of its own message only. */
  lemma QueueOnlyGrows(s: Player, e: Event)
    ensures var queue := Step(s, e).queue;
            s.queue <= queue && forall i :: |s.queue| <= i < |queue| ==> queue[i].message == e.message
  {
  }

  /** So whatever was handed over first is played first, over any number of messages. */
  lemma {:induction false} HistoryKeepsQueue(history: seq<Event>, n: nat)
    requires n <= |history|
    ensures Play(history[..n]).queue <= Play(history).queue
  {
    if n < |history| {
      var before := history[..|history| - 1];
      HistoryKeepsQueue(before, n);
      assert before[..n] == history[..n];
      QueueOnlyGrows(Play(before), history[|history| - 1]);
    } else {
      assert history[..n] == history;
    }
  }

  /** A complete list adds at the end too, forgets the message's entry, and leaves every other entry alone. */
  lemma CompleteListAppends(s: Player, m: MessageID, parts: seq<Part>)
    ensures var after := AllReady(s, m, parts);
            && s.queue <= after.queue
            && (forall i :: |s.queue| <= i < |after.queue| ==> after.queue[i].message == m)
            && after.pending == s.pending - {m}
  {
  }

  /** A part that has to wait is kept under its index, and a later one of the same index takes its place. */
  lemma WaitingPartIsKept(s: Player, m: MessageID, index: nat, url: Url)
    requires m in s.pending && !Complete(s.pending[m])
    requires s.pending[m].nextIndex != index && s.pending[m].nextIndex !in s.pending[m].parts
    ensures var after := PartReady(s, m, index, url);
            && after.queue == s.queue
            && after.pending == s.pending[m := s.pending[m].(parts := s.pending[m].parts[index := url])]
  {
    var parts := s.pending[m].parts[index := url];
    assert Ready(parts, s.pending[m].nextIndex) == [];
    assert Clips(m, []) == [];
  }

  /** The notice of how many parts there are sets the number, whatever has arrived. */
  lemma NoticeSetsCount(s: Player, m: MessageID, n: nat)
    ensures var after := Queued(s, m, n);
            && (m in after.pending ==> after.pending[m].partCount == Some(n))
            && (m !in s.pending ==> after.pending[m] == Pending(Some(n), 0, map[]) && after.queue == s.queue)
  {
  }

  // The complete list of tts_ready.

  lemma {:induction false} FilterKeeps(parts: seq<Part>, from: nat)
    requires DistinctKeys(parts, Index())
    ensures DistinctKeys(Filter(parts, from), Index())
    ensures Elements(Filter(parts, from)) == set p | p in Elements(parts) && p.index >= from
  {
    if parts != [] {
      FilterKeeps(parts[1..], from);
      ElementsOfCons(parts);
      var (rest, all) := (Filter(parts[1..], from), Filter(parts, from));
      forall i | 0 <= i < |rest| ensures rest[i].index != parts[0].index {
        assert rest[i] in Elements(rest);
        var j :| 0 <= j < |parts[1..]| && parts[1..][j] == rest[i];
        assert Index()(parts[0]) != Index()(parts[j + 1]);
      }
      if parts[0].index >= from {
        ElementsOfCons(all);
        assert all[1..] == rest;
      } else {
        assert all == rest;
      }
    }
  }

  /** Any list, complete or not: what was not yet handed over is added in index order. */
  lemma ListIsAddedInOrder(s: Player, m: MessageID, parts: seq<Part>) returns (rest: seq<Part>)
    requires DistinctKeys(parts, Index())
    ensures StrictlyAscending(rest, Index())
    ensures var from := if m in s.pending then s.pending[m].nextIndex else 0;
            Elements(rest) == set p | p in Elements(parts) && p.index >= from
    ensures var queue := AllReady(s, m, parts).queue;
            && |queue| == |s.queue| + |rest| && s.queue <= queue
            && forall i :: 0 <= i < |rest| ==> queue[|s.queue| + i] == Clip(m, rest[i].url)
  {
    var from := if m in s.pending then s.pending[m].nextIndex else 0;
    FilterKeeps(parts, from);
    SortDistinct(Filter(parts, from), Index());
    rest := SortBy(Filter(parts, from), Index());
  }

  function PartsFrom(all: seq<Url>, from: nat): seq<Part>
    requires from <= |all|
  {
    seq(|all| - from, j requires 0 <= j < |all| - from => Part(from + j, all[from + j]))
  }

  lemma PartsFromElements(all: seq<Url>, from: nat)
    requires from <= |all|
    ensures Elements(PartsFrom(all, from)) == set p | p in Elements(PartsFrom(all, 0)) && p.index >= from
  {
    var (whole, rest) := (PartsFrom(all, 0), PartsFrom(all, from));
    assert forall j :: 0 <= j < |rest| ==> rest[j] == whole[from + j];
    assert forall i :: from <= i < |whole| ==> whole[i] == rest[i - from];
  }

  lemma ReadySortsRest(parts: seq<Part>, all: seq<Url>, from: nat)
    requires DistinctKeys(parts, Index()) && Elements(parts) == Elements(PartsFrom(all, 0)) && from <= |all|
    ensures SortBy(Filter(parts, from), Index()) == PartsFrom(all, from)
  {
    FilterKeeps(parts, from);
    SortDistinct(Filter(parts, from), Index());
    PartsFromElements(all, from);
    AscendingUnique(SortBy(Filter(parts, from), Index()), PartsFrom(all, from), Index());
  }

  /**
   The complete list hands over exactly what is still missing, so that everything was heard once, as
   long as the parts were not already complete; after that it plays everything a second time.
   */
  lemma ReadyCompletesUnlessComplete(history: seq<Event>, m: MessageID, all: seq<Url>, parts: seq<Part>)
    requires WellFormed(history) && all != []
    requires DistinctKeys(parts, Index()) && Elements(parts) == Elements(PartsFrom(all, 0))
    requires Announced(history, m).Some? ==> Announced(history, m).value == |all|
    requires forall i :: i in Received(history, m) ==> i < |all| && Received(history, m)[i] == all[i]
    ensures var again := Announced(history, m).Some? && HasAll(Received(history, m), |all|);
            Heard(AllReady(Play(history), m, parts).queue, m) == if again then all + all else all
  {
    var (s, received, announced) := (Play(history), Received(history, m), Announced(history, m));
    var k := HeardIsLongestPrefix(history, m);
    assert |all| !in received && (k > 0 ==> 0 in received);
    assert k == |all| <==> HasAll(received, |all|) by {
      if k < |all| {
        assert k !in received;
      }
    }
    CompletingHeard(s, m, received, announced, k, all, parts);
  }

  lemma CompletingHeard(s: Player, m: MessageID, received: map<nat, Url>, announced: Option<nat>, k: nat,
                        all: seq<Url>, parts: seq<Part>)
    requires InStep(s, m, received, announced, k) && k <= |all| && all != []
    requires DistinctKeys(parts, Index()) && Elements(parts) == Elements(PartsFrom(all, 0))
    requires announced.Some? ==> announced.value == |all|
    requires forall i: nat :: i < k ==> received[i] == all[i]
    ensures Heard(AllReady(s, m, parts).queue, m) == if announced.Some? && k == |all| then all + all else all
  {
    var from := if m in s.pending then k else 0;
    assert k > 0 ==> 0 in received;
    ReadyHeard(s, m, all, from, parts);
    assert FirstParts(received, k) == all[..k];
    Halves(all, k);
  }

  lemma Halves<T>(all: seq<T>, k: nat)
    requires k <= |all|
    ensures all[..k] + all[k..] == all && all[0..] == all
    ensures (k == |all| ==> all[..k] == all) && (k == 0 ==> all[..k] == [])
  {
  }

  lemma ReadyHeard(s: Player, m: MessageID, all: seq<Url>, from: nat, parts: seq<Part>)
    requires DistinctKeys(parts, Index()) && Elements(parts) == Elements(PartsFrom(all, 0)) && from <= |all|
    requires from == if m in s.pending then s.pending[m].nextIndex else 0
    ensures Heard(AllReady(s, m, parts).queue, m) == Heard(s.queue, m) + all[from..]
  {
    ReadySortsRest(parts, all, from);
    assert Urls(PartsFrom(all, from)) == all[from..];
    HeardAppend(s.queue, m, all[from..], m);
  }
}
