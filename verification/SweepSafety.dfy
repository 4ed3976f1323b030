/**
 The write, stage, take, insert protocol of uploaded images, running against any number of concurrent
 list-then-remove sweeps on any nodes. Every arrow of either protocol is a step of its own.
 */
module SweepSafety {
  import opened Common
  import Uploads

  /** Only the identity of files and tokens matters here. */
  type Path = nat
  type Token = nat
  type MessageID = nat
  type SweepID = nat

  /** A sweep has listed the referenced paths, and perhaps fixed its cutoff and started walking. */
  datatype Sweep = Listed(referenced: set<Path>, at: int) | Walking(referenced: set<Path>, at: int, cutoff: int)

  datatype StagedFile = StagedFile(path: Path, at: int)

  /** `written` remembers every file ever saved; names are random and never reused. */
  datatype World = World(
    clock: int,
    written: map<Path, int>,
    files: map<Path, int>,
    staged: map<Token, StagedFile>,
    taken: map<Path, int>,            // consumed by a post, not inserted yet
    rows: map<MessageID, Path>,
    sweeps: map<SweepID, Sweep>)

  /** The longest write-to-stage, take-to-insert and list-to-cutoff delays of a run, and the token lifetime. */
  datatype Timing = Timing(stage: nat, insert: nat, cut: nat, ttl: nat)

  datatype Action =
    | Save(path: Path)
    | Stage(path: Path, token: Token)
    | Take(token: Token)
    | Insert(path: Path, message: MessageID)
    | DropTaken(path: Path)                   // refused or failed posts
    | DeleteRow(message: MessageID)
    | DeleteFile(path: Path)                  // message, channel and failed-upload deletions
    | List(sweep: SweepID)
    | FixCutoff(sweep: SweepID)
    | Remove(sweep: SweepID, path: Path)

  datatype Event = Event(action: Action, at: int)

  predicate CanHappen(t: Timing, w: World, e: Event) {
    && w.clock <= e.at
    && match e.action
       case Save(path) => path !in w.written
       case Stage(path, token) => path in w.written && token !in w.staged && e.at <= w.written[path] + t.stage
       case Take(token) => token in w.staged && e.at <= w.staged[token].at + t.ttl
       case Insert(path, message) => path in w.taken && message !in w.rows && e.at <= w.taken[path] + t.insert
       case DropTaken(path) => path in w.taken
       case DeleteRow(message) => message in w.rows
       case DeleteFile(path) => true
       case List(s) => s !in w.sweeps
       case FixCutoff(s) => s in w.sweeps && w.sweeps[s].Listed? && e.at <= w.sweeps[s].at + t.cut
       case Remove(s, path) => CanRemove(w, s, path)
  }

  predicate CanRemove(w: World, s: SweepID, path: Path) {
    && s in w.sweeps && w.sweeps[s].Walking? && path in w.files
    && Uploads.Orphan(w.files[path], path, w.sweeps[s].referenced, w.sweeps[s].cutoff)
  }

  /** The upload's side of a step: files, tokens and messages. */
  function Moved(w: World, e: Event): World {
    match e.action
    case Save(path) => w.(written := w.written[path := e.at], files := w.files[path := e.at])
    case Stage(path, token) => w.(staged := w.staged[token := StagedFile(path, e.at)])
    case Take(token) =>
      if token !in w.staged then w
      else w.(staged := w.staged - {token}, taken := w.taken[w.staged[token].path := e.at])
    case Insert(path, message) => w.(taken := w.taken - {path}, rows := w.rows[message := path])
    case DropTaken(path) => w.(taken := w.taken - {path})
    case DeleteRow(message) => w.(rows := w.rows - {message})
    case DeleteFile(path) => w.(files := w.files - {path})
    case Remove(_, path) => w.(files := w.files - {path})
    case List(_) => w
    case FixCutoff(_) => w
  }

  /** The sweeps' side of a step: list what is referenced, later fix the cutoff of the walk. */
  function SweepsAfter(t: Timing, w: World, e: Event): map<SweepID, Sweep> {
    match e.action
    case List(s) => w.sweeps[s := Listed(w.rows.Values, e.at)]
    case FixCutoff(s) =>
      if s !in w.sweeps then w.sweeps
      else w.sweeps[s := Walking(w.sweeps[s].referenced, w.sweeps[s].at, e.at - (t.ttl + HOUR))]
    case _ => w.sweeps
  }

  function Step(t: Timing, w: World, e: Event): World {
    if !CanHappen(t, w, e) then w else Moved(w, e).(clock := e.at, sweeps := SweepsAfter(t, w, e))
  }

  function Run(t: Timing, w: World, events: seq<Event>): World
    decreases |events|
  {
    if events == [] then w else Run(t, Step(t, w, events[0]), events[1..])
  }

  const EMPTY: World := World(0, map[], map[], map[], map[], map[], map[])

  predicate Referenced(w: World, path: Path) {
    exists m :: m in w.rows && w.rows[m] == path
  }

  /** Latest instant at which a path written at `m` can still enter a message. */
  function LastInsert(t: Timing, m: int): int {
    m + t.stage + t.ttl + t.insert
  }

  predicate FilesTimely(written: map<Path, int>, files: map<Path, int>) {
    forall p :: p in files ==> p in written && files[p] == written[p]
  }

  predicate StagedTimely(t: Timing, written: map<Path, int>, staged: map<Token, StagedFile>) {
    forall k :: k in staged ==> staged[k].path in written && staged[k].at <= written[staged[k].path] + t.stage
  }

  predicate TakenTimely(t: Timing, written: map<Path, int>, taken: map<Path, int>) {
    forall p :: p in taken ==> p in written && taken[p] <= written[p] + t.stage + t.ttl
  }

  predicate RowsTimely(written: map<Path, int>, rows: map<MessageID, Path>) {
    forall m :: m in rows ==> rows[m] in written
  }

  predicate PathsTimely(t: Timing, w: World) {
    && FilesTimely(w.written, w.files)
    && StagedTimely(t, w.written, w.staged)
    && TakenTimely(t, w.written, w.taken)
    && RowsTimely(w.written, w.rows)
  }

  /** A path a sweep did not list can only have entered a message after the listing. */
  predicate SweepTimely(t: Timing, w: World, sweep: Sweep) {
    && sweep.at <= w.clock
    && (sweep.Walking? ==> sweep.cutoff <= sweep.at + t.cut - (t.ttl + HOUR))
    && (forall m :: m in w.rows && w.rows[m] !in sweep.referenced ==>
          w.rows[m] in w.written && sweep.at <= LastInsert(t, w.written[w.rows[m]]))
  }

  predicate Inv(t: Timing, w: World) {
    && PathsTimely(t, w)
    && forall s :: s in w.sweeps ==> SweepTimely(t, w, w.sweeps[s])
  }

  lemma StepKeepsPathsTimely(t: Timing, w: World, e: Event)
    requires PathsTimely(t, w) && CanHappen(t, w, e)
    ensures PathsTimely(t, Moved(w, e))
  {
    match e.action
    case Save(path) =>
    case Stage(path, token) =>
    case Take(token) =>
    case Insert(path, message) =>
    case DropTaken(path) =>
    case DeleteRow(message) =>
    case DeleteFile(path) =>
    case Remove(_, path) =>
    case List(_) =>
    case FixCutoff(_) =>
  }

  /** Whatever a step adds to the message table, it adds in time. */
  predicate RowsGrowTimely(t: Timing, w: World, w': World) {
    && w.clock <= w'.clock
    && (forall p :: p in w.written ==> p in w'.written && w'.written[p] == w.written[p])
    && (forall m :: m in w'.rows && !(m in w.rows && w.rows[m] == w'.rows[m]) ==>
          w'.rows[m] in w'.written && w'.clock <= LastInsert(t, w'.written[w'.rows[m]]))
  }

  lemma StepGrowsRowsTimely(t: Timing, w: World, e: Event)
    requires PathsTimely(t, w) && CanHappen(t, w, e)
    ensures RowsGrowTimely(t, w, Step(t, w, e))
  {
    match e.action
    case Save(path) =>
    case Insert(path, message) =>
    case _ =>
  }

  /** A sweep keeps what it listed; all that changes is that it fixes its cutoff in time. */
  predicate Advances(t: Timing, sweep: Sweep, sweep': Sweep) {
    || sweep' == sweep
    || (sweep'.Walking? && sweep'.referenced == sweep.referenced && sweep'.at == sweep.at
        && sweep'.cutoff <= sweep.at + t.cut - (t.ttl + HOUR))
  }

  lemma SweepsAdvance(t: Timing, w: World, e: Event, s: SweepID)
    requires CanHappen(t, w, e) && s in w.sweeps
    ensures s in SweepsAfter(t, w, e) && Advances(t, w.sweeps[s], SweepsAfter(t, w, e)[s])
  {
  }

  lemma NewSweepsListEverything(t: Timing, w: World, e: Event, s: SweepID)
    requires CanHappen(t, w, e) && s !in w.sweeps && s in SweepsAfter(t, w, e)
    ensures SweepsAfter(t, w, e)[s] == Listed(Moved(w, e).rows.Values, e.at)
  {
    assert e.action == List(s);
  }

  lemma AdvancingSweepStaysTimely(t: Timing, w: World, w': World, sweep: Sweep, sweep': Sweep)
    requires SweepTimely(t, w, sweep) && RowsGrowTimely(t, w, w') && Advances(t, sweep, sweep')
    ensures SweepTimely(t, w', sweep')
  {
  }

  lemma FreshListingIsTimely(t: Timing, w: World, sweep: Sweep)
    requires sweep == Listed(w.rows.Values, w.clock)
    ensures SweepTimely(t, w, sweep)
  {
    forall m | m in w.rows ensures w.rows[m] in sweep.referenced {
    }
  }

  lemma StepKeepsInv(t: Timing, w: World, e: Event)
    requires Inv(t, w)
    ensures Inv(t, Step(t, w, e))
  {
    if CanHappen(t, w, e) {
      StepKeepsPathsTimely(t, w, e);
      StepGrowsRowsTimely(t, w, e);
      forall s | s in Step(t, w, e).sweeps
        ensures SweepTimely(t, Step(t, w, e), Step(t, w, e).sweeps[s])
      {
        if s in w.sweeps {
          SweepsAdvance(t, w, e, s);
          AdvancingSweepStaysTimely(t, w, Step(t, w, e), w.sweeps[s], Step(t, w, e).sweeps[s]);
        } else {
          NewSweepsListEverything(t, w, e, s);
          FreshListingIsTimely(t, Step(t, w, e), Step(t, w, e).sweeps[s]);
        }
      }
    }
  }

  lemma {:induction false} RunKeepsInv(t: Timing, w: World, events: seq<Event>)
    requires Inv(t, w)
    ensures Inv(t, Run(t, w, events))
    decreases |events|
  {
    if events != [] {
      StepKeepsInv(t, w, events[0]);
      RunKeepsInv(t, Step(t, w, events[0]), events[1..]);
    }
  }

  /** No run lets a sweep remove a file that a message references at that moment. */
  ghost predicate AlwaysSafe(t: Timing) {
    forall events, s, path :: CanRemove(Run(t, EMPTY, events), s, path) ==> !Referenced(Run(t, EMPTY, events), path)
  }

  lemma MarginProtects(t: Timing, w: World, s: SweepID, path: Path)
    requires Inv(t, w) && t.stage + t.insert + t.cut < HOUR && CanRemove(w, s, path)
    ensures !Referenced(w, path)
  {
    assert SweepTimely(t, w, w.sweeps[s]);
  }

  /** The run that defeats a margin that is too small: a post slips in between the listing and the walk. */
  function LateInsertion(t: Timing): seq<Event> {
    var posted := t.stage + t.ttl + t.insert;
    [Event(Save(0), 0), Event(Stage(0, 0), t.stage), Event(Take(0), t.stage + t.ttl),
     Event(List(0), posted), Event(Insert(0, 1), posted), Event(FixCutoff(0), posted + t.cut)]
  }

  lemma RunSplits(t: Timing, w: World, events: seq<Event>)
    requires events != []
    ensures Run(t, w, events) == Run(t, Step(t, w, events[0]), events[1..])
  {
  }

  /** The world just before the cutoff is fixed: listed without the message that has just been inserted. */
  function JustPosted(t: Timing): World {
    var posted := t.stage + t.ttl + t.insert;
    World(posted, map[0 := 0], map[0 := 0], map[], map[], map[1 := 0], map[0 := Listed({}, posted)])
  }

  lemma LateInsertionRuns(t: Timing)
    ensures Run(t, EMPTY, LateInsertion(t)[..5]) == JustPosted(t)
  {
    var es := LateInsertion(t);
    var (e0, e1, e2, e3, e4) := (es[0], es[1], es[2], es[3], es[4]);
    var w1 := World(0, map[0 := 0], map[0 := 0], map[], map[], map[], map[]);
    var w2 := w1.(clock := t.stage, staged := map[0 := StagedFile(0, t.stage)]);
    var w3 := w1.(clock := t.stage + t.ttl, taken := map[0 := t.stage + t.ttl]);
    var w4 := w3.(clock := e3.at, sweeps := map[0 := Listed({}, e3.at)]);
    assert Step(t, EMPTY, e0) == w1;
    assert Step(t, w1, e1) == w2;
    assert Step(t, w2, e2) == w3;
    assert w3.rows.Values == {};
    assert Step(t, w3, e3) == w4;
    assert Step(t, w4, e4) == JustPosted(t);
    assert es[..5] == [e0, e1, e2, e3, e4];
    RunSplits(t, EMPTY, [e0, e1, e2, e3, e4]);
    RunSplits(t, w1, [e1, e2, e3, e4]);
    RunSplits(t, w2, [e2, e3, e4]);
    RunSplits(t, w3, [e3, e4]);
    RunSplits(t, w4, [e4]);
  }

  lemma {:induction false} RunAppend(t: Timing, w: World, events: seq<Event>, e: Event)
    ensures Run(t, w, events + [e]) == Step(t, Run(t, w, events), e)
    decreases |events|
  {
    RunSplits(t, w, events + [e]);
    if events != [] {
      assert (events + [e])[1..] == events[1..] + [e];
      RunAppend(t, Step(t, w, events[0]), events[1..], e);
    }
  }

  lemma LateInsertionIsSwept(t: Timing)
    requires t.stage + t.insert + t.cut >= HOUR
    ensures var w := Run(t, EMPTY, LateInsertion(t)); CanRemove(w, 0, 0) && Referenced(w, 0)
  {
    LateInsertionRuns(t);
    var es := LateInsertion(t);
    assert es == es[..5] + [es[5]];
    RunAppend(t, EMPTY, es[..5], es[5]);
    assert Step(t, JustPosted(t), es[5]).rows[1] == 0;
  }

  /**
   Over every interleaving of saving, staging, posting, deleting and sweeping, the sweep spares every
   referenced file exactly when the three delays together stay below the one-hour margin.
   */
  lemma SweepSafeExactlyBelowMargin(t: Timing)
    ensures AlwaysSafe(t) <==> t.stage + t.insert + t.cut < HOUR
  {
    if t.stage + t.insert + t.cut < HOUR {
      forall events, s, path | CanRemove(Run(t, EMPTY, events), s, path)
        ensures !Referenced(Run(t, EMPTY, events), path)
      {
        RunKeepsInv(t, EMPTY, events);
        MarginProtects(t, Run(t, EMPTY, events), s, path);
      }
    } else {
      LateInsertionIsSwept(t);
    }
  }
}
