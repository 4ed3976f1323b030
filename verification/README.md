# A verified model of the chat service's timed and concurrent parts

This project models, in Dafny, the parts of the service whose correctness depends on the order in which
things happen: channels that open and close by themselves on several nodes at once, presence that expires,
uploads that are swept while people post, speech that arrives in pieces, and a client that catches up after
an absence. `dafny verify dfyconfig.toml` checks everything.

Time is a whole number of nanoseconds and never runs backwards. SQL NULL, Go's zero time and a missing map
entry are `None`.

## What is proved, hardest first

**Channels that close themselves** (`ChannelRow`, `Ledger`, `NodeState`, `Evaluations`, `HubTheorems`, `NodeHub`,
`Fleet`, `MirrorSync`). A channel's opening hours live in four columns that any node changes through guarded UPDATEs;
every node also keeps a mirror and a timer per channel. `NodeHub` has the imperative classes, each method tied to
a transition of `NodeState`, and `Evaluations` says what these transitions do to every field and timer. `Fleet`
puts any number of nodes, one row and one bus together and lets every statement, publication, delivery, timer and
evaluation interleave.
- The pause/auto-close logic exists twice, in `evaluateSuspend` and in the last-client branch of `Unregister`.
  `Fleet.LastLeaveMatchesEvaluateEverywhere` says for every reachable state of every node, under a fixed grace,
  exactly when they agree on an open, limited channel: when time is booked, or paused with auto-close on, or the
  timer already armed happens to be the right one. So they do not agree when nothing is booked: a channel opened
  without an end while unlimited and then limited again is left without a timer when its owner leaves last
  (`Fleet.NothingBookedStaysOpen` gives the run). Nor need they after a channel's grace is shortened
  (`HubTheorems.ShortenedGraceDisagrees`).
- While the owner is away the closing time neither drifts nor gets later than the booked end, however often it
  is re-evaluated (`AutoCloseNeverDrifts`, `AutoCloseNeverExtends`, `ClosesAtEarlierOfBookingAndGrace`).
- Over every run of the fleet, closing notices are exactly as many as open-to-suspended transitions of the row and
  resume notices exactly as many as effective resumes; each pause is announced as resumed at most once, counted
  from any moment of the run (`Fleet.EveryTransitionAnnouncedOnce`, `Fleet.EachPauseResumedAtMostOnce`). Pause
  notices are not so exact: a node also announces a pause that came too late to change the row, and those are
  exactly the surplus.
- A mirror that hears every change is paused exactly when the row is and otherwise in step with it up to the second
  lost in rounding, unless one of five things happens, and then it is not (`MirrorSync.ChangeKeepsInStepIff`): a
  paused channel is made unlimited or reopened without an end; the remaining time overflows the column; another
  node freezes with less than a second left, so that its notice says zero; or the node itself freezes a channel
  whose time has run out. Behind such a pause the owner's return resumes nothing
  (`MirrorSync.ReturnMissesUnknownPause`).
- Booked time is conserved (`Ledger`): over any interleaving of pauses and resumes, delivered plus remaining time is
  never less than the booking; pauses no later than their deadline add less than a second each, and a pause after
  its deadline forgives the overrun besides.

**Uploads against the orphan sweep** (`Uploads`, `ImageService`, `SweepSafety`). Write, stage, take, insert and
list, fix cutoff, remove are separate steps of any number of uploads and sweeps. `SweepSafeExactlyBelowMargin`
proves both directions: no run removes a file that a message references if and only if the write-to-stage,
take-to-insert and list-to-cutoff delays together stay below the one-hour margin. The comparison is strict:
a token can still be read at the very instant at which it expires, and a file whose age equals the cutoff is
removed, so delays that add up to the full hour lose a file (`LateInsertionIsSwept` builds the run).

**Presence** (`Presence`). The sorted set with second-truncated scores, a key lifetime of twice the window and
cleanup on read answers exactly like a last-seen map that never expires. Together with the configuration's
rule that the window covers three beacons, a beaconing user is in every answer.

**Speech** (`SplitText`, `Cuts`, `TtsStream`). The one-pass splitter, which keeps scanning forward after cutting back,
returns what a recursive greedy splitter returns; its parts hold at most 100 runes and together say the
whole message in order. On the client, whatever the order of arrival, the audio queue has always received
exactly the longest contiguous prefix of each message's parts. A complete list (`tts_ready`) that arrives after
the last part plays the message a second time; `ReadyCompletesUnlessComplete` gives the exact condition. The server
does not send that message today, so the second playing needs a sender that the repository does not have.
A part can be empty; `SplitNonEmptyIff` says for which messages. `Cuts` says where every cut falls without
mentioning the splitter, and that there is no other way to cut. Over any number of messages the queue only grows
at its end (`HistoryKeepsQueue`).

**Catching up** (`ChatLog`, `MergeMessages`, `ChatClient`, `ChatSession`, `Sorting`). Paging by cursor ends and
collects, in order and once each, every row above the cursor that lasts to its end, whatever is written or deleted
between pages; when nothing is deleted, exactly the rows of the last page's table. Merging keeps the largest 200
ids of both sides, once each and in order, and its description determines the result. For one absence,
`CatchUpLeavesNoHole` proves that however often the page is hidden again, fetches fail or newer messages slip in, the
first successful catch-up starts from the captured cursor. `ChatSession` follows a whole visit with the socket, the
table that others write to and the pages a catch-up has read. The list can end up with a hole:
`FocusWhileDownLosesAMessage` is the run in which the window gets the focus while the socket is down, that catch-up
clears the debt, and what is written before the socket is back is never fetched. `SessionHasNoHoleIff` is exact:
in states that owe nothing there is never a hole if and only if nothing is written while the socket is down, nothing
is owed and something is shown, and no catch-up finishes with a row written since its last page missing from the
list although something older stays. Up to 200 arrivals since that page, only rows written while the socket was down
can be missing then (`CutNeedsMoreArrivals`).
A lapse may still be mended before the socket is back (`HidingMendsLapse`); otherwise the hole is there when it is
(`ReopeningKeepsHole`). At any moment, connected or not, `HoleIffMissed` says which rows make a hole.

**Lists** (`Filters`, `Reactions`, `Access`). Reaction groups count every row once, in order of first appearance.
Cleaning an admission list is idempotent and never lists anyone new; it can drop somebody who was listed only by a second
entry's handle, and `CleanPreservesListingIff` says exactly for which lists it changes nobody's standing.

## Model

| member | source | states |
|---|---|---|
| ChannelRow.ReachableRowsConsistent | backend/internal/generated/db/channels.sql.go:117-211 | Whatever statements any nodes issue in any order, a suspended row has neither deadline nor frozen remainder, the two never coexist, and the remainder is a non-negative int4. |
| ChannelRow.ExecuteKeepsRowInv | backend/internal/generated/db/channels.sql.go:281-289 | Every single statement, including the mode switch, keeps that consistency. |
| ChannelRow.RacingPausesFreezeOnce | backend/internal/generated/db/channels.sql.go:185-194 | However many nodes race to pause, exactly one UPDATE takes effect and the row keeps the remainder frozen at the first. |
| ChannelRow.FrozenRemainderStays | backend/internal/generated/db/channels.sql.go:185-194 | A frozen remainder survives every statement that does not resume, restart, close or lift the limit, and no further pause applies. |
| ChannelRow.UnlimitedDeadlineReturnsExactlyWhenBooked | backend/internal/generated/db/channels.sql.go:281-289 | Unlimited does not imply a null deadline: exactly which statements bring one back. |
| ChannelRow.UnlimitedWithDeadlineIsReachable | backend/internal/generated/db/channels.sql.go:146-156 | A run after which an unlimited channel has a deadline. |
| ChannelRow.ChannelRecord.constructor | backend/internal/generated/db/channels.sql.go:9-20 | A new channel starts suspended with nothing booked. |
| ChannelRow.ChannelRecord.SuspendChannelIfActive | backend/internal/generated/db/channels.sql.go:117-130 | The guarded UPDATE on the columns and its row count are the SuspendIfActive transition. |
| ChannelRow.ChannelRecord.ResumeChannelIfSuspended | backend/internal/generated/db/channels.sql.go:132-144 | The same for reopening. |
| ChannelRow.ChannelRecord.StartChannelOperating | backend/internal/generated/db/channels.sql.go:146-164 | The same for starting with or without a deadline. |
| ChannelRow.ChannelRecord.SetChannelOperatingDeadline | backend/internal/generated/db/channels.sql.go:166-183 | The same for moving the deadline of an open channel, dropping a frozen remainder. |
| ChannelRow.ChannelRecord.PauseChannelOperating | backend/internal/generated/db/channels.sql.go:185-202 | The same for freezing, with rounding up, the floor at zero and the int4 overflow error. |
| ChannelRow.ChannelRecord.ResumeChannelOperating | backend/internal/generated/db/channels.sql.go:204-219 | The same for thawing, with the returned deadline or no row. |
| ChannelRow.ChannelRecord.SetChannelOperatingUnlimited | backend/internal/generated/db/channels.sql.go:281-299 | The same for the mode switch. |
| ChannelRow.DeadlineColumn | backend/internal/generated/db/channels.sql.go:117-211 | Which statements book, move, keep or erase the deadline, each over every consistent row, with a remainder too long for the column leaving it in place. |
| ChannelRow.PauseColumn | backend/internal/generated/db/channels.sql.go:185-194 | The frozen seconds are the least whole number that covers the time left, zero when it has run out; which other statements keep them. |
| ChannelRow.RepliesTellTheTruth | backend/internal/generated/db/channels.sql.go:117-211 | A reply of no rows means an untouched row, and exactly which rows each statement matches. |
| Ledger.BookedTimeIsConserved | backend/internal/generated/db/channels.sql.go:185-211 | Over any interleaving of pauses and resumes, delivered plus remaining time is the booking plus forgiven overrun plus less than a second per effective pause; nothing is lost. |
| Ledger.PunctualCyclesGainUnderOneSecondEach | backend/internal/generated/db/channels.sql.go:185-211 | With pauses no later than their deadline, n pauses give away less than n seconds in all. |
| Ledger.StepKeepsTimeLeft | backend/internal/generated/db/channels.sql.go:185-211 | What one pause or resume does to the remaining time, with the exact rounding bounds. |
| HubTheorems.ReceiveKeepsInv | backend/internal/chat/hub.go:674-723 | Every bus message keeps the mirror invariant: suspended means nothing booked and no absence, a frozen remainder excludes a deadline, and with auto-close an absence beside a deadline ends later than it. |
| HubTheorems.EvaluateKeepsInv | backend/internal/chat/hub.go:753-856 | Every evaluation keeps it. |
| HubTheorems.JoinWithAnyGrace | backend/internal/chat/hub.go:113-186 | A mirror started from a consistent row snapshot has it; a join follows any grace the client brings and keeps the invariant exactly unless that grace ends a counted absence before the running deadline. |
| HubTheorems.LeaveKeepsInv | backend/internal/chat/hub.go:188-275 | A client leaving keeps it. |
| HubTheorems.LeaveAgreesIff | backend/internal/chat/hub.go:236-271 | Exactly when the last-client branch arms the timer and attempts the effects that an evaluation with the owner absent would, case by case. |
| HubTheorems.LastLeaveMatchesEvaluate | backend/internal/chat/hub.go:236-271 | Under the invariant the two agree whenever time is booked, or paused with auto-close on. |
| HubTheorems.ShortenedGraceDisagrees | backend/internal/chat/hub.go:174-176 | A run of joins, an evaluation and a leave in which a grace shortened during an absence makes the two copies disagree. |
| HubTheorems.FirstEvaluationSettles | backend/internal/chat/hub.go:789-855 | The first evaluation with the owner away settles the mirror on one closing time. |
| HubTheorems.SettledStays | backend/internal/chat/hub.go:697-708 | The node's own pause notice, a tick or a fired timer leaves it settled on that time. |
| HubTheorems.AutoCloseNeverDrifts | backend/internal/chat/hub.go:79-81 | In any run of ticks, own echoes and timer fires with the owner away, every later evaluation arms the first closing time again. |
| HubTheorems.AutoCloseNeverExtends | backend/internal/chat/hub.go:804-822 | That time is no later than the booked end, or than now if the end has passed. |
| HubTheorems.ClosesAtEarlierOfBookingAndGrace | backend/internal/chat/hub.go:727-748 | Before the booked end, the channel closes at the earlier of that end and the end of the grace, frozen or not. |
| HubTheorems.ReturnGivesBackRemainingTime | backend/internal/chat/hub.go:796-816 | Freezing and a later return give the owner exactly the time that was left, and no deadline exactly when none was left, which needs a grace of zero. |
| NodeHub.LocalChannel.constructor | backend/internal/chat/hub.go:151-170 | A mirror starts with the hours and the frozen remainder of the row snapshot. |
| NodeHub.LocalChannel.Connected | backend/internal/chat/hub.go:765-771 | The scan finds a user exactly when one of the node's connections is theirs. |
| NodeHub.LocalChannel.Reassess | backend/internal/chat/hub.go:789-821 | The fields, and which of pause or resume is owed, after the presence answer. |
| NodeHub.LocalChannel.ComputeSuspendDeadline | backend/internal/chat/hub.go:727-748 | The closing time; PresentOwnerArmsBooking and AbsentOwnerArmsEarlierEnd say what it is in every case. |
| NodeHub.Hub.SetSuspendTimer | backend/internal/chat/hub.go:860-894 | The timer of the slug is armed as asked, no other slug is touched, and presence is rebroadcast exactly on a change. |
| NodeHub.Hub.EvaluateSuspend | backend/internal/chat/hub.go:753-856 | The mirror, the timer and the attempted statements and publications of the transition that the Evaluations lemmas describe field by field; every other slug unchanged. |
| NodeHub.Hub.Deliver | backend/internal/chat/hub.go:382-443 | A bus message changes the mirror and is followed by an evaluation. |
| NodeHub.Hub.SetChannelOperating | backend/internal/chat/hub.go:674-693 | Opening, closing and resuming on the mirror. |
| NodeHub.Hub.SetChannelPaused | backend/internal/chat/hub.go:697-708 | A pause notice on the mirror; a zero remainder keeps the known one. |
| NodeHub.Hub.SetChannelUnlimited | backend/internal/chat/hub.go:712-723 | The mode switch on the mirror; it leaves a frozen remainder in place. |
| NodeHub.Hub.Register | backend/internal/chat/hub.go:113-186 | Joining: a stale mirror dropped, a fresh one on the first client, the grace followed, failure of the subscription leaving no mirror. |
| NodeHub.Hub.LastClientLeft | backend/internal/chat/hub.go:236-271 | The timer left behind by the last client and what it persists and publishes. |
| NodeHub.Hub.Unregister | backend/internal/chat/hub.go:188-275 | Leaving: presence removal only without another local connection, and the last-client branch. |
| NodeHub.Hub.TimerFired | backend/internal/chat/hub.go:884-912 | A fired timer forgets itself and publishes only if its UPDATE changed the row. |
| NodeHub.Hub.DropChannel | backend/internal/chat/hub.go:619-652 | Mirror and timer of a deleted channel are gone, others untouched. |
| Evaluations.PresentOwnerArmsBooking | backend/internal/chat/hub.go:734-748 | With the owner connected or active, an open limited channel is armed for its booked end, or for now plus the frozen remainder; a suspended or unlimited one for nothing. |
| Evaluations.AbsentOwnerArmsEarlierEnd | backend/internal/chat/hub.go:734-748 | With the owner away and auto-close on, it is armed for the end of the grace or an earlier booked end that keeps running; without auto-close for the booked end. |
| Evaluations.ReturnEndsAbsence | backend/internal/chat/hub.go:789-803 | An owner who is back is no longer counted absent and gets the frozen remainder from now on, once. |
| Evaluations.AbsenceIsCountedOnce | backend/internal/chat/hub.go:804-821 | An absence is counted from the first evaluation that notices it, and the clock is stopped exactly when the grace, taken from now, fits into the time left. |
| Evaluations.StoppingIsPersisted | backend/internal/chat/hub.go:824-836 | Stopping the clock, and nothing else an absence does, issues the pause statement, and publishes the instant the timer is armed for when the statement succeeded. |
| Evaluations.ResumingIsPersisted | backend/internal/chat/hub.go:838-853 | A return issues the resume statement exactly when something was frozen, and publishes the row's deadline, or the mirror's when the row tells none. |
| Evaluations.LastLeaveArms | backend/internal/chat/hub.go:236-271 | What the last-client branch arms and attempts, case by case on the fields, the unlimited channel included: it keeps its timer. |
| Evaluations.LeavingOnlyOrLast | backend/internal/chat/hub.go:188-275 | A user leaves the presence store with their last connection to the node and not before; the mirror lives exactly while somebody else is connected. |
| Evaluations.JoiningStartsOrFollows | backend/internal/chat/hub.go:113-186 | A join follows a running mirror of the same channel and otherwise starts one from the snapshot, discarding a stale mirror with its timer. |
| Evaluations.GraceSetting | backend/internal/chat/hub.go:90-98 | No setting means the server's grace, on when positive; a negative setting turns auto-close off, zero does not. |
| Evaluations.NoticesAndHours | backend/internal/chat/hub.go:674-723 | What every bus message makes of deadline and frozen remainder. |
| Fleet.FleetStaysConsistent | backend/internal/chat/hub.go:753-856 | In every run of any number of nodes the row and every mirror keep their invariants. |
| Fleet.LastLeaveMatchesEvaluateEverywhere | backend/internal/chat/hub.go:236-271 | In every reachable fleet, on every node, exactly when the last-client branch does what an evaluation would do at that instant. |
| Fleet.NothingBookedStaysOpen | backend/internal/chat/hub.go:929-937 | A run with a fixed grace in which they differ: nothing booked, the owner leaves last, no timer is left where an evaluation would arm the grace. |
| Fleet.EveryTransitionAnnouncedOnce | backend/internal/chat/hub.go:824-912 | Over every run, closing notices equal open-to-suspended transitions, resume notices equal effective resumes, and pause notices equal freezes plus pauses that came too late. |
| Fleet.EachPauseResumedAtMostOnce | backend/internal/chat/hub.go:838-853 | Counted from any moment of any run, each pause is announced as resumed at most once. |
| Fleet.StepTallies | backend/internal/chat/hub.go:916-1012 | Each step of a node, a timer or a request handler keeps notices and transitions in balance. |
| Fleet.LatePauseStillAnnounced | backend/internal/chat/hub.go:825-835 | A pause that changes no row is announced all the same. |
| Fleet.SecondPauseComesTooLate | backend/internal/chat/hub.go:825-835 | A run of two nodes that both freeze before either hears of the other: one pause too many is announced. |
| Fleet.NodeBalanced | backend/internal/chat/hub.go:825-853 | A resume is announced exactly by the node whose UPDATE thawed the row, a pause by every node whose statement succeeded. |
| MirrorSync.ChangeKeepsInStepIff | backend/internal/chat/hub.go:674-723 | Exactly which changes of the row a node's mirror follows when it hears their notice: paused when the row is, the same hours, at most a second less frozen. |
| MirrorSync.EvaluationKeepsInStepIff | backend/internal/chat/hub.go:825-853 | An evaluation and its own notice keep mirror and row in step exactly unless it freezes nothing, or more than the column holds. |
| MirrorSync.MirrorStaysInStep | backend/internal/chat/hub.go:382-443 | Over every run of such changes the mirror stays in step with the row. |
| MirrorSync.OneNoticeRepairs | backend/internal/chat/hub.go:674-693 | Closing, starting or moving the end, or a resume repairs a mirror that fell behind. |
| MirrorSync.FreshMirrorInStepIff | backend/internal/chat/hub.go:151-170 | A mirror started from the row's snapshot is in step exactly unless the row is paused with zero seconds. |
| MirrorSync.SubSecondPauseIsMissed | backend/internal/chat/hub.go:697-708 | Half a second left, frozen by another node: the row is paused and the mirror does not know. |
| MirrorSync.ReturnMissesUnknownPause | backend/internal/chat/hub.go:796-803 | From there the owner's return resumes nothing and the row stays paused without a deadline. |
| MirrorSync.NoticeIsWithinASecond | backend/internal/chat/hub.go:830-831 | The published whole seconds never wrap when the row accepts the remainder, and differ from the row's by at most one. |
| Uploads.UploadStore.Delete | backend/internal/uploads/store.go:147-159 | Deleting removes that file only, and a missing file is no error. |
| Uploads.UploadStore.SweepOrphans | backend/internal/uploads/store.go:163-201 | The walk removes exactly the unreferenced files at or before the cutoff and counts them. |
| Uploads.Staging.TakeUpload | backend/internal/realtime/valkey_bus.go:211-220 | Taking returns a live token's image once and consumes it. |
| ImageService.ImageServer.UploadChannelImage | backend/internal/httpserver/uploads.go:92-114 | Save then stage; a failed staging leaves neither file nor token. |
| ImageService.ImageServer.ResolveImage | backend/internal/chat/websocket.go:333-357 | A token is consumed even when refused; the image is attached exactly when the token is staged, live, names a file and belongs to this user in this channel. |
| ImageService.ImageServer.PostWithImage | backend/internal/chat/websocket.go:216-248 | A token adds a row exactly when it is staged, live, of this user and channel, names a file and the insert succeeds, and the row has the staged path; without a token exactly a non-empty body is posted. |
| ImageService.ImageServer.SweepOrphanImages | backend/internal/httpserver/uploads.go:172-198 | Without interleaving, a sweep keeps every referenced file and the header image and removes every old orphan. |
| SweepSafety.SweepSafeExactlyBelowMargin | backend/internal/httpserver/uploads.go:172-190 | Over every interleaving, the sweep spares every referenced file if and only if the three delays stay below one hour. |
| SweepSafety.RunKeepsInv | backend/internal/uploads/store.go:163-201 | The timing invariant behind it, over every run. |
| SweepSafety.MarginProtects | backend/internal/httpserver/uploads.go:189-190 | In any state with the invariant, a removable file is referenced by no message. |
| SweepSafety.LateInsertionIsSwept | backend/internal/chat/websocket.go:216-248 | A run that loses a referenced file once the delays reach the hour. |
| Presence.AnswersLikeLastSeenMap | backend/internal/realtime/valkey_bus.go:112-140 | After every history of marks, removals, clears, reads and key expiries, the answer equals that of a never-expiring last-seen map. |
| Presence.SeenRecentlyBounds | backend/internal/realtime/valkey_bus.go:223-242 | The whole-second rounding misses no one within the window and admits no one a second beyond it. |
| Presence.BeaconingUserIsAlwaysActive | backend/internal/config/config.go:94-101 | A user marked at least once in three beacons and not removed is in the answer of every query. |
| Presence.LoadIntervals | backend/internal/config/config.go:94-101 | For every environment: the beacon is the setting forced into its range, and the window the setting raised to three beacons and lowered to 300 s, in whole seconds. |
| Presence.ClampEnvInt | backend/internal/config/config.go:217-228 | The value or its default, or the bound it passes. |
| Presence.ActiveSet.constructor | backend/internal/realtime/valkey_bus.go:27-36 | A window that is not positive becomes 30 seconds. |
| Presence.ActiveSet.MarkActive | backend/internal/realtime/valkey_bus.go:112-123 | The member's score is the current second and the key lives two windows more. |
| Presence.ActiveSet.RemoveActive | backend/internal/realtime/valkey_bus.go:126-131 | One member leaves; the key goes with the last. |
| Presence.ActiveSet.ActiveUserIDs | backend/internal/realtime/valkey_bus.go:223-242 | Members older than the window are dropped and the others returned. |
| SplitText.SplitLongPart | backend/internal/tts/text.go:89-115 | The one-pass loop returns the recursive greedy split. |
| SplitText.SplitMessage | backend/internal/tts/text.go:44-62 | The rune loop returns the split of every sentence in turn. |
| SplitText.LastBreakEndIsLast | backend/internal/tts/text.go:97-110 | The greedy cut falls right after the last break of the window. |
| SplitText.SplitKeepsInk | backend/internal/tts/text.go:44-62 | The parts concatenated equal the text up to whitespace, and none exceeds 100 runes. |
| SplitText.PartsAreNonEmpty | backend/internal/tts/text.go:89-115 | No part is empty when the text has no run of 100 whitespace runes. |
| SplitText.SplitNonEmptyIff | backend/internal/tts/text.go:44-62 | For every message, exactly when no part is empty: no sentence over 100 runes has a cut window of nothing but whitespace. |
| SplitText.GreedyNonEmptyIff | backend/internal/tts/text.go:97-114 | The same for one trimmed sentence. |
| SplitText.EmptyPartHappens | backend/internal/tts/text.go:97-114 | A message with an empty part, with ideographic spaces that normalisation leaves alone. |
| Cuts.SplitAppend | backend/internal/tts/text.go:44-62 | After a text that ends in one of the six stops, what follows is split as if it stood alone. |
| Cuts.OneSentence | backend/internal/tts/text.go:44-62 | A text with no stop before its last rune is one sentence: no part when blank, its trimmed self when it fits. |
| Cuts.LongSentenceIsCutUp | backend/internal/tts/text.go:89-115 | A longer sentence is cut by a sequence of positions: each window of 100 runes after the last of the eight breaks in it, or at its end; the parts are the trimmed text in between. |
| Cuts.CuttingIsUnique | backend/internal/tts/text.go:89-115 | That description fixes the positions. |
| Cuts.TrimCutsWhitespace | backend/internal/tts/text.go:47-50 | Trimming takes the whitespace off both ends and nothing else. |
| Cuts.PartsAreTrimmed | backend/internal/tts/text.go:48-62 | No part begins or ends with whitespace. |
| TtsStream.HeardIsLongestPrefix | frontend/src/routes/ChannelPage.tsx:1195-1258 | After every interleaving over any number of messages, what was enqueued for a message is the longest contiguous prefix received, in order and once, and its entry holds exactly the rest. |
| TtsStream.AllArrivedAllHeard | frontend/src/routes/ChannelPage.tsx:1241-1258 | When all announced parts have arrived all were enqueued in order, and the entry is gone unless none was announced. |
| TtsStream.OthersUndisturbed | frontend/src/routes/ChannelPage.tsx:1195-1226 | An event of one message leaves queue share and entry of every other message alone. |
| TtsStream.ReadyCompletesUnlessComplete | frontend/src/routes/ChannelPage.tsx:1228-1239 | A complete list enqueues exactly what is missing, except after completion, when it enqueues everything again. |
| TtsStream.TtsPlayer.EnqueueAudio | frontend/src/routes/ChannelPage.tsx:1152-1159 | The urls go to the end of the queue in order. |
| TtsStream.TtsPlayer.FlushReadyTTSParts | frontend/src/routes/ChannelPage.tsx:1241-1258 | The contiguous parts go to the end of the queue and are removed; a complete entry is deleted. |
| TtsStream.TtsPlayer.HandleTTSQueued | frontend/src/routes/ChannelPage.tsx:1195-1207 | The count is noted and ready parts flushed. |
| TtsStream.TtsPlayer.HandleTTSPartReady | frontend/src/routes/ChannelPage.tsx:1209-1226 | The part is stored and ready parts flushed. |
| TtsStream.TtsPlayer.HandleTTSReady | frontend/src/routes/ChannelPage.tsx:1228-1239 | The remaining parts are enqueued in index order and the entry deleted. |
| TtsStream.QueueOnlyGrows | frontend/src/routes/ChannelPage.tsx:1152-1159 | Every event leaves what is queued where it is and adds clips of its own message only, at the end. |
| TtsStream.HistoryKeepsQueue | frontend/src/routes/ChannelPage.tsx:1152-1159 | So over every history, across messages, what was handed over first is played first. |
| TtsStream.ListIsAddedInOrder | frontend/src/routes/ChannelPage.tsx:1228-1239 | A complete list, whatever indices it has, adds exactly the parts not yet handed over, in index order. |
| TtsStream.WaitingPartIsKept | frontend/src/routes/ChannelPage.tsx:1209-1226 | A part that is not next is kept under its index and changes nothing else. |
| ChatLog.LatestChatMessageId | frontend/src/routes/ChannelPage.tsx:2314-2333 | The result is one of the chat ids and none is larger; null exactly without chat messages. |
| ChatLog.ListAfterSelects | backend/internal/generated/db/chat_messages.sql.go:75-83 | The query returns rows above the cursor only, in order, and omits one only behind a full page of smaller ids. |
| ChatLog.FetchPage | frontend/src/routes/ChannelPage.tsx:862-879 | One turn of the paging loop adds the page after the cursor, moves the cursor to its last row and goes on exactly after a full page; what is gathered stays complete. |
| ChatLog.FetchPages | frontend/src/routes/ChannelPage.tsx:862-879 | Whatever is written or deleted between pages, the loop ends and has collected in order, once each, every row above the start cursor that lasts to its end, and only rows it read. |
| ChatLog.FetchedWhenGrowing | frontend/src/routes/ChannelPage.tsx:862-879 | When nothing is deleted that is exactly the rows above the start cursor in the table the last page read. |
| ChatLog.FetchedRows | frontend/src/routes/ChannelPage.tsx:862-879 | In particular it has every such row that existed at the start, whatever was appended meanwhile. |
| MergeMessages.Merge | frontend/src/routes/ChannelPage.tsx:2350-2370 | Ids strictly ascending; the largest 200 of the union of both sides, all of them when they fit; the visible version wins; other messages fill what room is left. |
| MergeMessages.MergeUnique | frontend/src/routes/ChannelPage.tsx:2350-2370 | That description has only one result. |
| MergeMessages.CollectCurrent | frontend/src/routes/ChannelPage.tsx:2354-2362 | The map holds the last visible version under every id, others are kept in order. |
| MergeMessages.CollectIncoming | frontend/src/routes/ChannelPage.tsx:2363-2367 | Fetched messages enter only under unknown ids, the first one winning. |
| MergeMessages.LastWithIsLast | frontend/src/routes/ChannelPage.tsx:2356-2359 | Which visible version that is. |
| MergeMessages.FirstWithIsFirst | frontend/src/routes/ChannelPage.tsx:2363-2367 | Which fetched version that is. |
| Sorting.SortDistinct | frontend/src/routes/ChannelPage.tsx:2368-2369 | Sorting elements with distinct keys gives them all, once, in strictly ascending order. |
| ChatClient.CursorsStayInStep | frontend/src/routes/ChannelPage.tsx:816-885 | In every run of the page the resume cursor equals the synced cursor, and unless a catch-up is owed it covers every shown message. |
| ChatClient.StepKeepsCursorInv | frontend/src/routes/ChannelPage.tsx:556-569 | Every event of the page keeps this. |
| ChatClient.CatchUpLeavesNoHole | frontend/src/routes/ChannelPage.tsx:854-893 | After a whole absence the first successful catch-up has fetched from the captured cursor and the shown messages have no hole among the rows that lasted through it, deletions included. |
| ChatSession.SessionHasNoHoleIff | frontend/src/routes/ChannelPage.tsx:816-941 | Over a whole visit, in states that owe no catch-up the list never has a hole in the table if and only if no lapse happens: no message written while the socket is down and nothing is owed, no catch-up finishing without a row written since its last page. |
| ChatSession.HoleIffMissed | frontend/src/routes/ChannelPage.tsx:556-569 | In every reachable state the list has a hole exactly when a row after a shown message was written while the socket was down and read by no finished catch-up, or cut from the list before the finish. |
| ChatSession.NoHoleUpToCursor | frontend/src/routes/ChannelPage.tsx:842-851 | Until a lapse, even a page that owes a catch-up has no hole up to its cursor. |
| ChatSession.FocusWhileDownLosesAMessage | frontend/src/routes/ChannelPage.tsx:896-941 | A run that loses a message: a focus during the reconnect clears the debt, and reopening fetches nothing. |
| ChatSession.LapseOpensHole | frontend/src/routes/ChannelPage.tsx:880-886 | Right after a lapse nothing is owed and there is a hole. |
| ChatSession.ReopeningKeepsHole | frontend/src/routes/ChannelPage.tsx:933-940 | A hole that is open when the socket comes back, with nothing owed, stays open. |
| ChatSession.ReopeningFetchesWhatIsOwed | frontend/src/routes/ChannelPage.tsx:933-940 | In every reachable state, a reopened socket starts a catch-up at the cursor exactly when one is owed and none is in flight. |
| ChatSession.ForcingFetchesFromCursor | frontend/src/routes/ChannelPage.tsx:896-903 | In every reachable state, a forced one starts there whether or not it is owed. |
| ChatSession.OnlyReopeningAndForcingFetch | frontend/src/routes/ChannelPage.tsx:854-863 | Nothing else starts one. |
| ChatSession.ReopeningCatchesUp | frontend/src/routes/ChannelPage.tsx:933-940 | A run that works: what is written while the socket is down is shown after reopening and one catch-up. |
| ChatSession.HidingMendsLapse | frontend/src/routes/ChannelPage.tsx:896-903 | Hiding the page before the socket is back makes the missed message fetchable again. |
| ChatSession.CutNeedsMoreArrivals | frontend/src/routes/ChannelPage.tsx:556-569 | Up to 200 arrivals since the last page, a finishing catch-up can only miss what was written while the socket was down. |
| ChatSession.StepKeepsInv | frontend/src/routes/ChannelPage.tsx:556-569 | Every event of a visit keeps list, cursors, table and flight consistent: of the rows from some shown message on, exactly those are shown that were not missed. |
| ChatSession.CaptureBeginsAbsence | frontend/src/routes/ChannelPage.tsx:816-823 | Capturing the cursor of a page without a lapse is where an absence begins. |
| ChatSession.ReadPageGathers | frontend/src/routes/ChannelPage.tsx:862-879 | A page read keeps the flight complete: it has every row between its start and its cursor, and all of them once the page is not full. |
| ChatSession.LoadedInv | frontend/src/routes/ChannelPage.tsx:459-468 | A page starts that way with the newest rows, before the socket is first opened. |
| ChatClient.AwayRun | frontend/src/routes/ChannelPage.tsx:816-851 | Until then neither new captures, failed fetches nor newer messages move the cursor. |
| ChatClient.MergeCloses | frontend/src/routes/ChannelPage.tsx:882-884 | Merging everything above the cursor leaves no hole. |
| ChatClient.CaptureInFlightIsForgotten | frontend/src/routes/ChannelPage.tsx:816-885 | A capture made while a catch-up is in flight is forgotten when that one finishes, so reconnecting fetches nothing. |
| ChatClient.ChatPage.Open | frontend/src/routes/ChannelPage.tsx:463-468 | The initial list sets list and cursors. |
| ChatClient.ChatPage.Delete | frontend/src/routes/ChannelPage.tsx:478-481 | A deleted message leaves the list, the rest in order. |
| ChatClient.ChatPage.OnMessage | frontend/src/routes/ChannelPage.tsx:556-569 | A known id changes nothing; otherwise the message is appended and the cursor follows unless a catch-up is owed. |
| ChatClient.ChatPage.AdvanceSyncedCursor | frontend/src/routes/ChannelPage.tsx:842-851 | The cursor moves forward only, and the resume cursor with it unless a catch-up is owed. |
| ChatClient.ChatPage.CaptureResumeCursor | frontend/src/routes/ChannelPage.tsx:816-823 | A cursor is captured and a catch-up owed, unless there is nothing to start from. |
| ChatClient.ChatPage.BeginBackfill | frontend/src/routes/ChannelPage.tsx:854-863 | When a catch-up starts and from which cursor: none in flight, one owed or forced, and a cursor to start from. |
| ChatClient.ChatPage.FinishBackfill | frontend/src/routes/ChannelPage.tsx:880-886 | The rows are merged, nothing is owed any more, and the cursor covers shown and fetched messages. |
| ChatClient.StartsWhenOwedOrForced | frontend/src/routes/ChannelPage.tsx:854-863 | In every state of the page a catch-up starts at the cursor exactly when none is in flight and one is owed or forced; nothing else changes. |
| ChatClient.ReceivedMovesCursor | frontend/src/routes/ChannelPage.tsx:842-851 | A new chat message moves the cursor to itself unless a catch-up is owed; an older one never does. |
| ChatClient.ReceivedIsAppended | frontend/src/routes/ChannelPage.tsx:556-569 | A message comes last, and of more than 200 the first one goes. |
| ChatClient.WithoutSelects | frontend/src/routes/ChannelPage.tsx:478-481 | A deletion keeps every other entry, in order, each once. |
| ChatClient.FinishSettlesCursor | frontend/src/routes/ChannelPage.tsx:880-886 | After a catch-up nothing is owed or in flight and the cursor is the largest of what it was, what was shown and what was fetched. |
| Reactions.ReactionGroupsFromRows | backend/internal/chat/message.go:91-113 | The loop over a map of group objects returns the groups of the rows. |
| Reactions.ReactionGroupsByMessage | backend/internal/chat/message.go:116-126 | Each post gets exactly the groups of its own rows (PostGroupsTellRows says which), and only posts with rows appear. |
| Reactions.FirstAppearanceOrder | backend/internal/chat/message.go:92-112 | One group per emoji, in the order of the rows where emojis first appear, none left out. |
| Reactions.CountsSumToRows | backend/internal/chat/message.go:94-107 | The counts add up to the number of rows. |
| Reactions.CountsPerMessage | backend/internal/chat/message.go:116-126 | The same for each post, whose rows are exactly those with its id. |
| Reactions.RowsForSelects | backend/internal/chat/message.go:116-119 | The rows of a post are taken by ascending position, exactly those with its id, each once. |
| Reactions.UsersInRowOrder | backend/internal/chat/message.go:101-107 | A group's users are those of the rows with its emoji, in row order, one for each row. |
| Reactions.PostGroupsTellRows | backend/internal/chat/message.go:116-126 | A post's groups are in the order in which its own rows first show their emoji, by position in the whole list. |
| Access.CleanEntries | backend/internal/access/access.go:102-118 | The loop keeps exactly the entries whose primary key is present and new. |
| Access.CleanKeepsOrder | backend/internal/access/access.go:102-118 | The result is those entries, in order, by position. |
| Access.CleanIsDistinct | backend/internal/access/access.go:102-118 | No two kept entries share a primary key and every one has one. |
| Access.CleanIdempotent | backend/internal/access/access.go:100-118 | Cleaning twice is cleaning once. |
| Access.CleanListsNobodyNew | backend/internal/access/access.go:192-216 | Cleaning never lists anyone new, so a whitelist admits and a blacklist bars no one new. |
| Access.PrimaryMatchSurvives | backend/internal/access/access.go:121-140 | Whoever matches the primary key of some entry stays listed. |
| Access.StableIdSurvives | backend/internal/access/access.go:175-189 | In particular the user with an entry's stable id, under any handle and URL. |
| Access.CleanPreservesListingIff | backend/internal/access/access.go:102-118 | Cleaning changes nobody's standing exactly when every key of every entry is also a key of an entry that has no earlier twin. |
| Access.RenamedHandleIsDropped | backend/internal/access/access.go:102-118 | Two entries for one account under an old and a new handle: another account signed in under the new handle is listed before cleaning and not after. |
| Access.PassedOnHandleLosesItsListing | backend/internal/access/access.go:175-204 | Such a list and such a user, in plain letters. |
| Access.Listed | backend/internal/access/access.go:192-204 | A user is listed exactly when some key of some entry is theirs. |
| Access.Allowed | backend/internal/access/access.go:207-216 | A whitelist admits exactly the listed, a blacklist exactly the others, and any other mode everyone. |
| Access.EntryMeans | backend/internal/access/access.go:121-190 | Whom an entry means: whoever has its stable id, handle or profile URL up to case and outer space, and only when it has none of these whoever has what was typed, a leading at sign ignored. |
| Access.StableKeyIdentifies | backend/internal/access/access.go:165-167 | Stable keys of two accounts are equal exactly for the same provider and subject, when provider names have no colon. |
| Access.PrimaryIsStrongest | backend/internal/access/access.go:121-140 | Entries are recognised as repeated by the stable id, else the handle, else the profile, else what was typed. |

## Left out

- PauseChannelOperating: timestamps have microseconds in PostgreSQL; the model keeps the nanoseconds a node sends.
- EvaluateSuspend: one atomic step that takes the presence answer and the database's replies as parameters; the lock is released around the presence query and the statements in the code.
- Register: the lock is released while a stale mirror's clients are closed; the model does it in one step.
- LastLeaveMatchesEvaluateEverywhere: the owner, the channel id and the grace are fixed over a run, since agreement can fail after a shortened grace (ShortenedGraceDisagrees); deletion of the channel and stale timer races are not part of a run.
- Deliver: only messages that change the mirror; broadcasts, kicks and presence refreshes reach no modelled state.
- EveryTransitionAnnouncedOnce: counts attempts to publish; a publication that the bus loses, and a statement that commits although its reply is lost, are not modelled. An extension is any new deadline on an open row, because the code reads the old deadline before it writes the new one; concurrent extensions do not accumulate and drop a frozen remainder.
- MirrorStaysInStep: changes come one at a time and each is heard before the next; nodes that hear late or not at all are not claimed to agree with the row.
- SweepOrphanImages: one sweep over a quiet table; interleavings are the subject of SweepSafety, where the header image does not appear.
- UploadChannelImage: media conversion, token generation, its failures and the HTTP side; names and tokens are taken to be unused because they are random.
- PostWithImage: posting policies, user snapshots and publication after the insert.
- SplitMessage: characters are Unicode scalar values; the replacement of malformed UTF-8 is not modelled.
- HeardIsLongestPrefix: parts and counts arrive once per message; skipped and failed speech deletes an entry and is not modelled.
- AllArrivedAllHeard: an announcement of zero parts leaves its entry behind for good, as the code does.
- EnqueueAudio: speech is enabled and the cap of 20 queued items is ignored; a clip stays in the model's queue when playing takes it off the head.
- FetchPages: a row that is written while pages are read has a larger id than the rows already there; transactions that commit ids out of order are not modelled.
- SessionHasNoHoleIff: a message reaches a connected page at the moment it is written; delays on the bus, and slow clients that are disconnected, are not modelled. Nothing shown at all, in particular a page that has never had a message and so captures no cursor, has no hole; what it misses is older than everything shown later. The first opening of the socket fetches nothing, so a message written between the initial list and that opening is a lapse like any other. A gap-free stream is not claimed.
- OnMessage: React state and refs are taken to be in step after every event; reaction updates do not change ids and are left out.
- LatestChatMessageId: ids are the decimal integers the server sends; the branches for text that is no number are left out.
- CleanEntries: trimming, lower-casing and URL canonicalisation are parameters, so the results hold for any of them.
- Allowed: the server-wide switch that turns whitelists off is an easy wrapper and is left out.
- The speed ramp of speech, mode and slug checks, settings handlers: easy members only.
- Sockets, HTTP, JSON, sign-in, push encryption, speech synthesis, dictionaries, rendering: input and output or foreign libraries.
