# perf-sentinel command line: a verified model

perf-sentinel's command line watches a daemon, signs in to a Hub, pages through catalogs and publishes
reports. This project models the parts of it that are protocols, state machines, codecs and exact
arithmetic, and proves what they promise, for every input and over every run:

- **the live monitor** (`MonitorView`, `MonitorState`, `MonitorLoop`, `MonitorTrail`, `MonitorRun`). A poller feeds a 4-slot
  channel that drops when full; the UI loop drains it, merges each tick into the last good state, and
  repaints only when a dirty flag or the whole-second age says so. `MonitorState` is the class with the
  program's fields, each method proved against a function on their value; `MonitorLoop` is the state machine
  in which the poller, the clock and the user may act between any two steps; `MonitorRun` is the loop itself
  over the mutable state, against any schedule of what happens meanwhile, proved to do what `MonitorTrail` shows
  is the only thing that machine allows. Its caches (line counts, history ring,
  carried-forward tables, the screen) are proved equal to the simple thing each stands for.
- **the device-flow poller** (`DeviceFlow`), RFC 8628 sections 3.2 and 3.5, under arbitrary scheduling delays
  and answers, and **the stored credential** (`Credential`) across runs of login, logout and Hub calls.
- **the bounded fan-out** (`FanOut`): a window of concurrent fetches that complete in any order.
- **the percent-encoders and path builders** (`Encoding`), undone by a parser (RFC 3986 sections 2.1, 2.3).
- **atomic file replacement** (`AtomicWrite`), with every filesystem operation allowed to fail and the
  process allowed to stop after any of them.
- **the fragment loader** (`Fragments`): name grammar, sort, duplicate detection, directory order.
- **exact loops**: nearest-rank percentiles (`NearestRank`), catalog paging (`Catalog`), saturating
  tallies (`Recurrence`), disclosure accounting (`Disclosure`), panel resizing (`Resize`).

`Wrappers`, `Text`, `Sorting` and `Permutations` are the shared vocabulary. `dafny verify dfyconfig.toml`
checks everything.

Six promises do not hold as they stand. Each has a condition that decides when they do:

- the retry floor of one second covers failed polls only, so a Hub that announces an interval of 0 is polled
  as fast as it answers until the code dies (`RequestsBoundedIff`, `ZeroIntervalSpins`);
- an encoded path segment that is `.` or `..` stays a dot segment, which a reader that removes those
  (RFC 3986 section 5.2.4) takes out of the path (`SegmentSurvivesIff`);
- the integer sums of a disclosure wrap at 64 bits in a release build: a public count is the sum of the
  internal occurrences iff that sum fits (`FormsAgree`), and past 64 bits a service whose I/O is all avoidable
  can score 100 (`ScoreMeaning`, `WrappedScoreMisleads`);
- in a container wider than 101 cells a drag can leave the border two cells behind the cursor, out of its own
  hit tolerance (`DragFollowsCursor`, `WideContainersLoseTheBorder`);
- until the first snapshot the cached line counts are 0 while the waiting lines are drawn
  (`CacheIsExactIff`);
- a `hash-bake` killed while its temp file exists blocks all later ones (`StaleTempFreezesBaking`), which
  `write_token` avoids by removing the temp first.

`fetch_explain_trees` would answer with an empty map for a concurrency of 0, which its signature admits; its one
caller passes 16 (`query.rs:894`), so that is no input the program receives (`ExactIffConcurrent`).

Two places where the code and its comments disagree, and the model follows the code: a successful tick does
not clear the last error, although `monitor.rs:304-306` says it is `None` then (it is read only while stale);
and after a refusal a later transient incidents failure shows its own reason, not the refusal's.

## Model

| member | source | states |
|---|---|---|
| `MonitorLoop.EveryRunShowsWhatItApplied` | crates/sentinel-cli/src/monitor.rs:453-511 | over every interleaving of poll ticks, drains, input and drawing: at most 4 outcomes wait; the kept outcomes are, in order, those applied then those waiting (which are kept is the next row); scrapers and config on screen are the last present ones applied; a given incident list is on screen iff it is the last result that was no transient failure; the ring is the last 240 trend points |
| `MonitorLoop.DroppedIffFull` | crates/sentinel-cli/src/monitor.rs:569-603 | over every run, the outcome of each poll tick is recorded once, and is dropped iff four kept ones were still unapplied as it came in |
| `MonitorLoop.EveryTickIsRecorded` | crates/sentinel-cli/src/monitor.rs:596-605 | the record of what was polled is the run's ticks, in order |
| `MonitorLoop.EveryRunSamples` | crates/sentinel-cli/src/monitor.rs:254-282 | over every run, the i-th point of the ring has the energy of the i-th of the last 240 snapshots applied, the sum of its regions' CO2, and its three gauges, each against its own cap: absent without a status or a cap, within [0, 100], exact inside |
| `MonitorView.SampleMeans` | crates/sentinel-cli/src/monitor.rs:258-282 | the same of one sample and its snapshot |
| `MonitorLoop.UpdateIsTheLastGoodTick` | crates/sentinel-cli/src/monitor.rs:499 | over every run the time the age counts from is the instant the last good outcome was applied |
| `MonitorLoop.AgeMeans` | crates/sentinel-cli/src/monitor.rs:753 | the age is that time in whole seconds, rounded down |
| `MonitorLoop.StepsInTurn` | crates/sentinel-cli/src/monitor.rs:750-767 | where the loop stands after each of its own steps, and what input changes: the state by its handler, the size on a resize only, the phase by the quit key only |
| `MonitorLoop.StepTakesTime` | crates/sentinel-cli/src/monitor.rs:750-767 | time passes by what elapses and by the lag of a draw, and by nothing else |
| `MonitorLoop.EveryRunRepaints` | crates/sentinel-cli/src/monitor.rs:740-768 | over every run: while the dirty flag is down, and whenever the loop waits for input, the frame on screen is what a draw would paint now, and all the state it was drawn from (snapshot, scroll, tab, staleness and its reason, mouse mode, history, splits, held border) is the present one; mouse events meet the chart area of that frame |
| `MonitorLoop.ThrottleIsUnobservable` | crates/sentinel-cli/src/monitor.rs:753-758 | whether or not it repaints, after the decision the terminal shows the frame an unconditional draw would show, drawn from the same state, with the age at an instant of that turn |
| `MonitorLoop.EveryRunKeepsLayoutAndScroll` | crates/sentinel-cli/src/monitor.rs:374-557 | over every run: both splits sum to 100 with every panel at least 10; from the first snapshot on every cached line count is the length of the list `draw` would build; the scroll position is on a line of the tab, across shrinking snapshots and tab changes |
| `MonitorLoop.EveryRunKeepsInvariant` | crates/sentinel-cli/src/monitor.rs:740-768 | every state any run reaches meets the invariant: consistent layout and caches, a screen state that reflects the applied outcomes, a conserving channel, an up-to-date screen |
| `MonitorLoop.StepKeepsChannel` | crates/sentinel-cli/src/monitor.rs:589-606 | no step of the poller, the UI or the user reorders, duplicates or loses an outcome that was kept |
| `MonitorLoop.StepKeepsPainted` | crates/sentinel-cli/src/monitor.rs:740-839 | no step lowers the dirty flag while the screen differs from what a draw would paint, and the painted age never runs ahead of the clock |
| `MonitorLoop.ApplyReflects` | crates/sentinel-cli/src/monitor.rs:453-511 | applying one more outcome keeps the state equal to what all applied outcomes amount to: the last snapshot's data, the three carry-forward rules, the stale flag and its reason, the history |
| `MonitorLoop.RingGrows` | crates/sentinel-cli/src/monitor.rs:490-496 | pushing and popping the front of the ring gives the last 240 points of a list one longer |
| `MonitorRun.Monitor.RunLoop` | crates/sentinel-cli/src/monitor.rs:740-769 | against any schedule of poll ticks and elapsing time, the imperative loop takes each of its actions in its turn, after its burst of the schedule, with one repaint decision and one answer per wait, in order, up to the first quit key and no further; it ends in the state the machine reaches by exactly these actions, so every theorem over runs holds of it |
| `MonitorTrail.OnlyOneLoop` | crates/sentinel-cli/src/monitor.rs:740-769 | that contract determines everything: against one schedule, with the same waits and lags, two runs that meet it are the same, action by action, so no outcome, repaint or event can be skipped |
| `MonitorRun.Monitor.Drain` | crates/sentinel-cli/src/monitor.rs:750-752 | the drain loop ends although outcomes keep coming in; every receive is taken in its turn and after its burst, up to finding the channel empty, with no repaint and no answer among them |
| `MonitorTrail.DrainAdds` | crates/sentinel-cli/src/monitor.rs:750-752 | what a drain leaves done begins with what was done before it |
| `MonitorTrail.LaterTrailExtends` | crates/sentinel-cli/src/monitor.rs:740-769 | of two states of one run, what was done by the later one begins with what was done by the earlier |
| `MonitorRun.Monitor.Interfere` | crates/sentinel-cli/src/monitor.rs:589-606 | all of a burst happens, in order, between two actions of the loop |
| `MonitorRun.Monitor.Repaint` | crates/sentinel-cli/src/monitor.rs:753-758 | the repaint decision and the frame it paints, as one step of the machine |
| `MonitorRun.Monitor.Poll` | crates/sentinel-cli/src/monitor.rs:597-603 | a poll tick: the outcome goes to the back of the queue iff fewer than 4 wait, and the record says which |
| `MonitorState.MonitorState.constructor` | crates/sentinel-cli/src/monitor.rs:338-358 | the initial fields, with both splits valid |
| `MonitorState.MonitorState.Apply` | crates/sentinel-cli/src/monitor.rs:453-511 | the whole new state after a tick: merged snapshot, ring, counts, clamped scroll, dirty flag, or staleness on a failure |
| `MonitorState.MonitorState.CarryForward` | crates/sentinel-cli/src/monitor.rs:456-489 | the three carry-forward rules by cases equal the merge function, and they leave the trend sample alone |
| `MonitorState.MonitorState.RefreshLineCounts` | crates/sentinel-cli/src/monitor.rs:437-451 | the six cached counts, spelled out in tab order, are the lengths of the six tabs' lines |
| `MonitorState.MonitorState.CycleTab` | crates/sentinel-cli/src/monitor.rs:513-531 | the next or previous tab, scroll at 0, no border held |
| `MonitorState.MonitorState.ScrollUp` | crates/sentinel-cli/src/monitor.rs:544-548 | one line up, repainting only when the position moved |
| `MonitorState.MonitorState.ScrollDown` | crates/sentinel-cli/src/monitor.rs:551-557 | one line down while the tab has one, else nothing |
| `MonitorState.MonitorState.ToggleMouseMode` | crates/sentinel-cli/src/monitor.rs:363-372 | the mode flips; turning it off drops a drag and a highlight |
| `MonitorState.MonitorState.ResetLayout` | crates/sentinel-cli/src/monitor.rs:375-379 | both split arrays, in place, are 50/50 |
| `MonitorState.MonitorState.BorderAt` | crates/sentinel-cli/src/monitor.rs:382-408 | the border under the cursor, the charts' own border looked for first |
| `MonitorState.MonitorState.ApplyDrag` | crates/sentinel-cli/src/monitor.rs:416-435 | the dragged border's split array is cut in place at the cursor, the other is untouched, and both stay valid splits |
| `MonitorState.MonitorState.HandleMouse` | crates/sentinel-cli/src/monitor.rs:793-818 | the new state up to the dirty flag, and the answer that sets it |
| `MonitorState.MonitorState.HandleKey` | crates/sentinel-cli/src/monitor.rs:822-839 | the new state for each key; quits on the quit keys only |
| `MonitorState.MonitorState.HandleEvent` | crates/sentinel-cli/src/monitor.rs:773-788 | the new state for each event; mouse events count on Trends in mouse mode only |
| `MonitorState.MonitorState.Draw` | crates/sentinel-cli/src/monitor.rs:841-949 | what is painted, the snapshot it is filled from, and the chart area stored for the next hit test: none without charts, untouched on text tabs |
| `MonitorState.ApplyKeepsConsistent` | crates/sentinel-cli/src/monitor.rs:453-511 | a tick keeps splits, counts, scroll clamp, ring bound and held borders consistent |
| `MonitorState.EventKeepsConsistent` | crates/sentinel-cli/src/monitor.rs:773-839 | so does every event; in particular no border is held off Trends or outside mouse mode |
| `MonitorState.TicksMean` | crates/sentinel-cli/src/monitor.rs:497-509 | a good tick is dated, ends staleness and keeps the scroll position as far as the new list goes; a failed one changes staleness and its reason, and asks for a repaint iff it changed them |
| `MonitorState.TabKeysMean` | crates/sentinel-cli/src/monitor.rs:513-531 | tab and back-tab go round the six tabs in order and undo each other, with scroll at 0 and no border held |
| `MonitorState.ArrowKeysMean` | crates/sentinel-cli/src/monitor.rs:544-557 | the arrows move one line within the tab and otherwise nothing |
| `MonitorState.LetterKeysMean` | crates/sentinel-cli/src/monitor.rs:829-837 | `m` flips the mode, `r` resets the splits on Trends only, other keys do nothing |
| `MonitorState.QuietEvents` | crates/sentinel-cli/src/monitor.rs:773-788 | releases, other events, mouse events off Trends or outside the mode, and motion that stays on the same border change nothing, the dirty flag included |
| `MonitorState.HitMeans` | crates/sentinel-cli/src/monitor.rs:382-408 | which cells grab which border, in cells: the charts' own border in the charts' rows, else the one below, at most a cell off |
| `MonitorState.ButtonsMean` | crates/sentinel-cli/src/monitor.rs:793-818 | a press grabs, a release lets go, a move lights up the border under the cursor, and nothing else |
| `MonitorState.DragMeans` | crates/sentinel-cli/src/monitor.rs:416-435 | a drag moves the held border, and no other, to the cursor's percentage kept between 10 and 90 |
| `MonitorState.GestureMovesBorder` | crates/sentinel-cli/src/monitor.rs:793-818 | press, drag and release move the border pressed on to where the drag ended, move no other, and leave nothing held |
| `MonitorState.DrawnAreaIsTheInterior` | crates/sentinel-cli/src/monitor.rs:1847-1876 | the stored chart area is the cells inside the border of the body |
| `MonitorState.CacheIsExactIff` | crates/sentinel-cli/src/monitor.rs:440-451 | in every consistent state the cache is exact for all tabs iff a snapshot has arrived |
| `MonitorView.LineCountsAre` | crates/sentinel-cli/src/monitor.rs:1002-1760 | how many lines each tab has, in numbers, by what the snapshot holds |
| `MonitorView.WaitingCounts` | crates/sentinel-cli/src/monitor.rs:970-985 | before the first snapshot, four on each text tab |
| `MonitorState.EventRepaintsWhatItChanges` | crates/sentinel-cli/src/monitor.rs:363-379 | an event that leaves the dirty flag down changed nothing that is painted or drawn from, nor the chart area |
| `MonitorState.FrameTellsTheState` | crates/sentinel-cli/src/monitor.rs:841-949 | two states paint the same frame iff they agree in everything `draw` and `draw_header` read but the age |
| `MonitorState.ApplyRepaintsWhatItChanges` | crates/sentinel-cli/src/monitor.rs:505-509 | an outcome that leaves the dirty flag down changed nothing at all |
| `MonitorView.BuildTrendSeries` | crates/sentinel-cli/src/monitor.rs:1818-1835 | each series has strictly increasing x, every x is the tick index of the value shown, and no tick that has a value is missing |
| `MonitorView.SeriesFitTheWindow` | crates/sentinel-cli/src/monitor.rs:1892-1900 | every plotted x lies in the window, whose width is always one ring, and the newest point is at its right edge |
| `DeviceFlow.EveryRequestWaits` | crates/sentinel-cli/src/hub.rs:580-617 | in every run request k goes out only a whole due wait after the previous answer (the truncated sleep never shortens it) and before the code dies; after a failed poll at least a second later; the due interval is the initial one plus 5 s per `slow_down`, saturating |
| `DeviceFlow.LoginIsOnTime` | crates/sentinel-cli/src/hub.rs:580-617 | in the Hub's own numbers: request k is made iff all earlier answers were to be polled on and its time, with no sleep cut short, is before both limits of the code's life; it then goes out at exactly that time |
| `DeviceFlow.OutcomeIff` | crates/sentinel-cli/src/hub.rs:601-633 | how a sign-in ends: which answer gives which outcome, expiry iff the next request would come too late, and no other way |
| `DeviceFlow.GrantInTimeSignsIn` | crates/sentinel-cli/src/hub.rs:604-611 | a grant that the clock lets through yields its token |
| `DeviceFlow.WakesOnTime` | crates/sentinel-cli/src/hub.rs:591-595 | cutting a sleep short at the deadline is seen in no request |
| `DeviceFlow.RunIsOnTime` | crates/sentinel-cli/src/hub.rs:591-616 | the times of the requests of a run resumed from any point |
| `DeviceFlow.RunIsPaced` | crates/sentinel-cli/src/hub.rs:591-616 | the same for a run resumed from any point of the loop, with the interval in force at each request |
| `DeviceFlow.RequestsFitTheLifetime` | crates/sentinel-cli/src/hub.rs:586-595 | the k-th request goes out no earlier than k initial intervals after the start, and k intervals are less than the lifetime |
| `DeviceFlow.PollingTerminates` | crates/sentinel-cli/src/hub.rs:591-616 | with an interval of at least a second the loop ends, whatever the Hub answers, within lifetime / interval turns |
| `DeviceFlow.RequestsBoundedIff` | crates/sentinel-cli/src/hub.rs:587-597 | the number of requests is bounded over all answers iff the announced interval is not 0 or the code is dead on arrival |
| `DeviceFlow.ZeroIntervalSpins` | crates/sentinel-cli/src/hub.rs:589-597 | an interval of 0 with instant pending answers makes any number of requests without the clock moving |
| `DeviceFlow.TokenIffGranted` | crates/sentinel-cli/src/hub.rs:608-611 | a token comes out iff the last answer granted exactly it |
| `DeviceFlow.OnlyTheLastReplyDecides` | crates/sentinel-cli/src/hub.rs:604-616 | every earlier answer was one to poll again after, and the outcome is the last answer's verdict, or expiry |
| `DeviceFlow.PollDevice` | crates/sentinel-cli/src/hub.rs:580-617 | the loop's outcome and the requests it made, with their times, are those of the run above |
| `FanOut.FetchExplainTrees` | crates/sentinel-cli/src/query.rs:779-814 | the loop ends, makes a run of the window machine, leaves nothing in flight, and for a concurrency of at least 1 returns exactly the trees of the ids whose fetch succeeded |
| `FanOut.Prime` | crates/sentinel-cli/src/query.rs:793-798 | the first `concurrency` ids, or all, are in flight and the rest pending |
| `FanOut.RunConserves` | crates/sentinel-cli/src/query.rs:800-811 | in every window of every run: pending, in flight and joined partition the ids, each spawned once; at most `concurrency` in flight and exactly that many while some are pending; the map holds exactly the joined successes |
| `FanOut.StepConserves` | crates/sentinel-cli/src/query.rs:800-811 | any completion keeps all that and joins one more id |
| `FanOut.CompleteRunIsExact` | crates/sentinel-cli/src/query.rs:800-813 | a run at rest has joined every id after one step per id, and its map does not depend on the order of completion |
| `FanOut.ExactIffConcurrent` | crates/sentinel-cli/src/query.rs:796-813 | a finished run's map is exact iff the concurrency is at least 1 or no fetch would have succeeded |
| `Encoding.DecodeEncode` | crates/sentinel-cli/src/hub.rs:403-414 | percent-decoding undoes either encoder on every byte string |
| `Encoding.EncodeInjective` | crates/sentinel-cli/src/ack.rs:1048-1067 | two values that print alike, under either encoder, are the same value |
| `Encoding.EncodersDifferOnColonOnly` | crates/sentinel-cli/src/ack.rs:1069-1072 | the two encoders print a value alike iff it holds no `:` |
| `Encoding.EncodedStaysInItsSlot` | crates/sentinel-cli/src/query.rs:188-189 | no printed value holds a character that ends a parameter, a segment or a query |
| `Encoding.Encode` | crates/sentinel-cli/src/hub.rs:403-414 | the loop prints each byte verbatim iff it is unreserved, else as its upper-case escape |
| `Encoding.PrintMeans` | crates/sentinel-cli/src/hub.rs:406-411 | which bytes print as themselves, and the two upper-case hexadecimal digits of every other |
| `Encoding.PercentEncodeSignatureSegment` | crates/sentinel-cli/src/ack.rs:1048-1067 | the borrowed fast path and the loop print the same; the fast path answers iff encoding changes nothing |
| `Encoding.QueryReadsBack` | crates/sentinel-cli/src/hub.rs:456-460 | a form body reads back as exactly its fields, in order |
| `Encoding.WithQueryReadsBack` | crates/sentinel-cli/src/hub.rs:836-842 | a Hub path reads back as its route and exactly the parameters that were set |
| `Encoding.WithQueryPrints` | crates/sentinel-cli/src/hub.rs:836-842 | its exact text, by the encoder that leaves no `:` |
| `Encoding.PresentIsExact` | crates/sentinel-cli/src/hub.rs:839 | a parameter that is set is kept as it is and in place, one that is not is dropped |
| `Encoding.BuildFindingsPath` | crates/sentinel-cli/src/query.rs:181-201 | the exact text of the findings path, and that it reads back as the limit and the filters given, whatever bytes they hold |
| `Encoding.BuildIncidentsPath` | crates/sentinel-cli/src/query.rs:600-615 | the exact text of the incidents path, and that it reads back as offset, limit and the filters given |
| `Encoding.DigitsDenote` | crates/sentinel-cli/src/query.rs:190 | a number is printed as digits that denote it |
| `Encoding.DigitsNeedNoEscape` | crates/sentinel-cli/src/query.rs:607 | a number printed raw is what encoding it would print |
| `Encoding.SegmentReadsBack` | crates/sentinel-cli/src/hub.rs:401-414 | an encoded value put between slashes is one part when split at them, and decodes to itself |
| `Encoding.SegmentSurvivesIff` | crates/sentinel-cli/src/hub.rs:401-414 | a path with an encoded id survives the removal of dot segments iff the id is neither `.` nor `..` |
| `Encoding.PrintsADotSegmentIff` | crates/sentinel-cli/src/hub.rs:407 | an encoded id is a dot segment iff the id is one |
| `AtomicWrite.WriteAtomicPretty` | crates/sentinel-cli/src/hash_bake.rs:102-158 | in every state the disk goes through, the target is whole old or whole new; success leaves the new content and no temp; a temp already there makes it refuse and change nothing; without a fault it succeeds iff there was none; a temp is left behind only after two faults; every run that succeeds went through a state with the temp beside the old target |
| `AtomicWrite.WriteReport` | crates/sentinel-cli/src/hash_bake.rs:132-148 | the buffered writes touch only the temp file, which holds the whole report once the flush worked |
| `AtomicWrite.WriteToken` | crates/sentinel-cli/src/hub.rs:370-397 | in every state the target is whole old or whole new; success leaves the new content and no temp; without a fault it always succeeds, a stale temp included |
| `AtomicWrite.FillTemp` | crates/sentinel-cli/src/hub.rs:382-395 | a stale temp is replaced by the synced new content, and nothing else is touched |
| `AtomicWrite.CmdHashBake` | crates/sentinel-cli/src/hash_bake.rs:36-98 | the exit code, 0 for every bakeable report when nothing fails and no temp is in the way, the baked content on success, and an untouched disk on a refusal or unreadable input |
| `AtomicWrite.RunJobs` | crates/sentinel-cli/src/hash_bake.rs:100-158 | runs of both writers in sequence, each ended or killed in any state it goes through, make exactly the chains of states the next two rows speak of |
| `AtomicWrite.TargetIsNeverTorn` | crates/sentinel-cli/src/hash_bake.rs:100-158 | after any number of runs of either writer, each stopped anywhere, the target holds whole what the last renaming run wrote, or what it held first; every other file but the temp is unchanged |
| `AtomicWrite.StaleTempFreezesBaking` | crates/sentinel-cli/src/hash_bake.rs:111-131 | once a temp is left over, no later `hash-bake` changes anything |
| `AtomicWrite.KilledBakeLeavesTemp` | crates/sentinel-cli/src/hash_bake.rs:122-150 | a killed `hash-bake` can leave such a temp, holding any part of the report, beside the old target |
| `Credential.BearerIsTheLastLogins` | crates/sentinel-cli/src/hub.rs:246-293 | over every run of logins, logouts and other programs exposing, damaging or replacing the file, a bearer that goes out is the token stored last and not logged out since, to the normalised base stored with it, which is https or loopback, before it expires; unless another program stored it, that is the last login's token and base, within the seconds that login was granted |
| `Credential.BearerGoesOutIff` | crates/sentinel-cli/src/hub.rs:273-293 | with the file left alone, it goes out iff there is such a login, fewer than 1000 times its granted seconds ago in milliseconds (capped where that leaves 64 bits), and no other Hub is asked for |
| `Credential.TargetIff` | crates/sentinel-cli/src/hub.rs:246-293 | where a call goes and with which token, from the environment token, the Hub named, the file and the clock, in every case |
| `Credential.RefusalIff` | crates/sentinel-cli/src/hub.rs:246-293 | which refusal is given when no URL is to blame |
| `Credential.NoBearerInClear` | crates/sentinel-cli/src/hub.rs:228-242 | whatever the environment and the file, a bearer goes to a base that starts with `https://` or whose host is one of the three loopback names |
| `Credential.HubBaseIff` | crates/sentinel-cli/src/hub.rs:228-242 | which bases may carry a token |
| `Credential.UrlAcceptedIff` | crates/sentinel-cli/src/ack.rs:404-466 | a URL is accepted as `base` iff it is `base` and slashes, split at its first `://`, and the parser finds an http(s) authority without userinfo, path or query in `base` |
| `Credential.NormalizationIdempotent` | crates/sentinel-cli/src/ack.rs:404-466 | a normalised URL passes validation again unchanged, for any URI parser |
| `Credential.FileHoldsTheLastWrite` | crates/sentinel-cli/src/hub.rs:530-559 | after any run a token in the file is the one stored last and not logged out since |
| `Credential.UntouchedFileHoldsTheLastLogin` | crates/sentinel-cli/src/hub.rs:643-680 | with the file left alone it holds that login's token, or is absent, exactly |
| `Credential.LastWrite` | crates/sentinel-cli/src/hub.rs:545-553 | the last event that stored a token, not followed by a completed logout; none only if every stored token was logged out |
| `Credential.TokenStore.Login` | crates/sentinel-cli/src/hub.rs:530-559 | a login stores its token iff the Hub URL may carry one, the token is non-empty printable ASCII and the write works; then the file holds that token, the base and the expiry in milliseconds |
| `Credential.TokenStore.Logout` | crates/sentinel-cli/src/hub.rs:643-697 | the file goes whenever its removal works; a revocation is sent iff the file loads and its base may carry a token; what counts as success |
| `Fragments.PriorityIffGrammar` | crates/sentinel-cli/src/config_load.rs:114-130 | the checks accept a name iff it is two digits, `-`, words of `[a-z0-9]+` joined by `-`, `.toml` |
| `Fragments.GrammarHasPriority` | crates/sentinel-cli/src/config_load.rs:129 | and they read the number the two digits denote |
| `Fragments.ScanSucceedsIff` | crates/sentinel-cli/src/config_load.rs:46-78 | the directory is accepted iff every `.toml` entry is in the grammar and no two names start with the same two digits; the names read are exactly its `.toml` names, each once, by the ascending number of their digits |
| `Fragments.ScanErrorMeans` | crates/sentinel-cli/src/config_load.rs:48-77 | otherwise the error is that of the first unacceptable entry, or names two fragments with the same digits |
| `Fragments.NeighboursSuffice` | crates/sentinel-cli/src/config_load.rs:70-78 | after the sort, comparing neighbours finds a duplicate iff there is one |
| `Fragments.LoadIgnoresDirectoryOrder` | crates/sentinel-cli/src/config_load.rs:35-112 | two orders of one listing load alike, down to the error, unless some entry is refused in both |
| `Fragments.DocumentsInOrder` | crates/sentinel-cli/src/config_load.rs:80-110 | on success: the `.toml` names by the ascending number of their two digits, each once with its own text, then the main file when there is one, then the flags |
| `Fragments.LoadSucceedsIff` | crates/sentinel-cli/src/config_load.rs:35-112 | when a load succeeds: the listing did, the directory is accepted, every fragment reads, and the main file is there or may be missing and is |
| `Fragments.LateErrorMeans` | crates/sentinel-cli/src/config_load.rs:80-101 | past the directory, which error a failing load gives |
| `Fragments.ScanDirectory` | crates/sentinel-cli/src/config_load.rs:45-78 | the loops over entries and adjacent pairs give the verdict above, with the first error met |
| `Fragments.LoadConfigFiles` | crates/sentinel-cli/src/config_load.rs:35-112 | the documents or the first error, the four ways the main file can be missing included |
| `Resize.CutMovesOneBorder` | crates/sentinel-cli/src/tui_resize.rs:26-43 | for any number of segments: the sum, the other segments and all other cumulative cuts stay, both touched segments keep the minimum, the cut lands on the clamped request |
| `Resize.LandsWhereAsked` | crates/sentinel-cli/src/tui_resize.rs:39-42 | the cut lands on the request, or leaves one segment exactly the minimum on the side it was asked beyond |
| `Resize.PercentIff` | crates/sentinel-cli/src/tui_resize.rs:59-68 | the percentage of a cell: 0 left of the container, 100 right of it, else the largest not past the cell |
| `Resize.BoundaryCellIff` | crates/sentinel-cli/src/tui_resize.rs:45-57 | the cell of a border is the last one not past its share |
| `Resize.CutKeepsSplit` | crates/sentinel-cli/src/tui_resize.rs:26-43 | a valid split stays one, whatever boundary and cut are asked for |
| `Resize.SetCut` | crates/sentinel-cli/src/tui_resize.rs:30-43 | the in-place method changes the array to exactly that, for any array; it gives up iff a sum of the cut leaves 16 bits |
| `Resize.SmallTotalFits` | crates/sentinel-cli/src/tui_resize.rs:34-36 | no sum does when the total fits, as every split's does |
| `Resize.DragFollowsCursor` | crates/sentinel-cli/src/tui_resize.rs:49-74 | an unclamped drag puts the border at the cursor less ceil(((100 offset) mod len) / 100), never past it; it stays within hit tolerance iff that remainder is at most 100, and always for len <= 101 |
| `Resize.WideContainersLoseTheBorder` | crates/sentinel-cli/src/tui_resize.rs:49-74 | at len 103 and cursor 69 the border lands on 67, out of tolerance |
| `Resize.BorderReadsBack` | crates/sentinel-cli/src/tui_resize.rs:45-68 | reading a drawn border gives its cut less an exact loss of at most ceil(99 / len) |
| `Resize.RoundTripLoss` | crates/sentinel-cli/src/tui_resize.rs:56-67 | scaling down and back with truncation loses exactly the remainder over the factor, rounded up |
| `NearestRank.ComputeLatencyPercentiles` | crates/sentinel-cli/src/bench.rs:115-137 | p50 and p99 are each the smallest sample with at least 50% (99%) of the samples at or below it, p50 <= p99, both 0 without samples |
| `NearestRank.SortedRank` | crates/sentinel-cli/src/bench.rs:125-132 | in a sorted list the sample at ceil(p n) - 1 is the nearest rank |
| `NearestRank.SamplesSpread` | crates/sentinel-cli/src/bench.rs:119-122 | a sample times the event count is the duration |
| `NearestRank.PercentileIgnoresOrder` | crates/sentinel-cli/src/bench.rs:119-123 | permuting the durations changes neither percentile |
| `NearestRank.NearestRankIsUnique` | crates/sentinel-cli/src/bench.rs:127-132 | a percentile is determined by its meaning |
| `Catalog.FetchScaleway` | scripts/refresh-instance-power.py:271-319 | against any pages the loop ends; it fails iff no product it read is eligible; else one row per eligible offer, strictly ascending by offer id, the last eligible product of each |
| `Catalog.ReadsEveryPageIff` | scripts/refresh-instance-power.py:309-316 | non-empty pages are all read, each once, iff no earlier page reports a total already reached |
| `Catalog.ReadsToTheFirstStop` | scripts/refresh-instance-power.py:283-316 | the loop reads up to the first place where it must stop: the end, an empty page, or a reported total reached |
| `Catalog.HonestCatalogIsReadWhole` | scripts/refresh-instance-power.py:309-316 | a catalog whose reported totals are absent or true is read whole |
| `Catalog.LastRowIsLast` | scripts/refresh-instance-power.py:288-308 | an offer's row is that of an eligible product after which no product of the offer is eligible |
| `Catalog.EligibleIff` | scripts/refresh-instance-power.py:293-308 | the exact products that are eligible and what their rows say, the memory premium from 8 GiB per vCPU on |
| `Catalog.SortedValues` | scripts/refresh-instance-power.py:319 | the dict's values, each once, in strictly ascending order |
| `Recurrence.StoredRecurrenceIndex` | crates/sentinel-cli/src/query.rs:299-322 | the keys are those of the rows, and each key's count and operations are the true sums over its rows, capped once at the integer maximum |
| `Recurrence.OneRowTallied` | crates/sentinel-cli/src/query.rs:226-233 | saturating in the product, the conversion and both additions is capping the plain sum once |
| `Recurrence.IndexIgnoresOrder` | crates/sentinel-cli/src/query.rs:299-322 | permuting the rows does not change the index, wherever it saturates |
| `Disclosure.BuildApplications` | crates/sentinel-cli/src/disclose.rs:629-691 | the loop that skips the unattributed bucket gives the applications in service order, field by field, with sums wrapped at 64 bits |
| `Disclosure.ListPublishes` | crates/sentinel-cli/src/disclose.rs:636-689 | the list is the attributed services, each once, in order, with each one's own figures field by field, pattern details and sightings included |
| `Disclosure.ScoreIsTheShareLeft` | crates/sentinel-cli/src/disclose.rs:649-654 | the score is the percentage of the I/O that was not avoidable, 0 when more than all was |
| `Disclosure.BuildAntiPatternDetails` | crates/sentinel-cli/src/disclose.rs:701-739 | one detail per pattern, in order, with its sightings and criteria |
| `Disclosure.ListMatchesCount` | crates/sentinel-cli/src/disclose.rs:430-437 | the application list is as long as the measured-services count, and as the published one iff that fits 32 bits |
| `Disclosure.FormsAgree` | crates/sentinel-cli/src/disclose.rs:656-688 | the Internal and Public lists name the same services in the same order and agree in each of the six fields both spell out; a public count is the internal occurrences' sum at 64 bits, and the sum itself iff it fits |
| `Disclosure.WasteAddsUp` | crates/sentinel-cli/src/disclose.rs:709-733 | the waste of the patterns sums to the avoidable operations times the coefficient, its carbon to that times the service's ratio |
| `Disclosure.ScoreMeaning` | crates/sentinel-cli/src/disclose.rs:643-654 | every score is in [0, 100]; by the 64-bit sums, 100 iff nothing was avoidable (or found, without I/O), 0 iff everything was |
| `Disclosure.WrappedScoreMisleads` | crates/sentinel-cli/src/disclose.rs:643-654 | two patterns of 2^63 avoidable operations each give a full score |

## Left out

- The analysis library (`sentinel_core`): detection, correlation, scoring, configuration merging, hashing. Hashing is a parameter of `CmdHashBake`; the documents `LoadConfigFiles` returns are what the configuration parser is given.
- HTTP, TLS, JSON, TOML and URI parsing. An answer is already classified, a URI parser is a parameter for which every theorem holds.
- The async runtime and signals: a fetch is an outcome, a schedule is any interleaving. In the device flow the time of a request is the clock reading that lets it through; the instants between that check and the bytes on the wire are not modelled.
- Loops that an environment keeps going (`PollDevice`, `RunLoop`) are run against a finite script of what it does, of any length; in the monitor's loop the environment acts between two of the loop's actions, not within one; `StillPolling` marks a script that ended before the loop.
- Floating-point rounding: percentiles, trend samples, scores and waste are exact reals.
- Terminal drawing: the wording of cells, sanitising, colours, wrapping and the layout solver's rounding of the painted borders. A line is told by what it is about and a frame carries the snapshot its cells are worded from; the hit test uses the cell arithmetic of `tui_resize.rs`.
- The terminal's size is taken to change together with its resize event.
- File modes, symlink refusal, power loss, a failing serialiser, and the buffered writer's last flush when it is dropped after a failed run.
- The trimming of the token environment variable (`ResolveTarget` takes it trimmed), and the requests made with a resolved target.
- The fetches of the fan-out put the trace id into their URL as it is; only how each ends is modelled.
- SetCut: does not follow an unchecked build past the sum that leaves 16 bits, where it wraps and may panic in `clamp`; no caller reaches it since splits sum to 100.
- A checked build stops where a disclosure sum leaves 64 bits; the model wraps, as the release profile does. The RGESN criteria of a pattern are the library's table, a parameter here.
- LoadIgnoresDirectoryOrder: which of several refused entries is named does depend on the listing order, in the source as in the model.
- FetchScaleway: the downloaded pages are an argument, a page past the last comes back empty; the JSON defaults of missing fields are folded into the field values.
- FetchExplainTrees: the ids come as a duplicate-free list, in the source a sorted set.
- Sorts are the standard library's: they are modelled by an insertion sort proved to permute and to order.
- The throughput quotient of `bench`, the command-line tree, exit-code tables, message wording, `query inspect`, the HTML and documentation scripts: no loop or state of interest.
