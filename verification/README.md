# babybeat session core in Dafny

This project models the core of babybeat, a fetal kick counter. A user opens
a counting **session**, taps once per kick, may pause and resume, and the
session ends in one of three ways:

- complete, when the count reaches the target;
- timeout, when the time limit runs out;
- ended early, by hand.

Each tap becomes a **kick event** in a log. Every event carries an ordinal
that is 1-based within its session, and the session caches its kick count.

The model covers:

- the session state machine (`StateMachine`): guarded transitions, paused-time accounting, and the elapsed, remaining and duration formulas;
- the kick log (`KickLog`) and its invariant (`LogInvariant`): ordinals stay exactly 1..n under register and undo, and the cached count equals the number of events;
- the session store (`SessionStore`): create with defaults and overrides, partial update, queries, and cascading delete;
- the session provider (`Orchestrator`): its reducer, the tap, undo, pause, resume, end-early, save-details, reset and start handlers, the timeout poll as one tick step, start-up loading, and the derived values;
- preferences merged over their defaults (`PreferenceStore`);
- the CSV export (`Csv`, `Export`): field escaping, the exportable-session selection, the summary and detailed files, and a reader proved to read every written file back;
- the timer card (`Timer`, `Clock`, `Decimal`): `formatTime`, elapsed, remaining, timed-out and warning.

How the source's environment is represented:

- Timestamps are integer milliseconds, and the clock reading `now` is a parameter.
- The two IndexedDB tables are an explicit `Db` value:
  - sessions are a map from id to record;
  - events are a sequence.
- Each database transaction is one functional update.
- Fresh uuids, the clock and the time zone of a handler run come in as parameters (`Orchestrator.Env`).
- Store errors are `Result` values:
  - adding a key that already exists is a `ConstraintError`;
  - updating a key that does not exist is a silent no-op, as the store library does.

Points where the code may surprise a reader:

- `tap` creates its session with no overrides (`src/lib/SessionContext.tsx:161`). The preferred target and time limit are therefore not applied to sessions started by a tap.
- `registerKick` never looks the session up (`src/lib/kickService.ts:10-43`). An unknown session id gets the event and no session record changes. The model raises no "not found" error there.
- Ending a session early from a pause leaves `pausedAt` set (`src/lib/sessionStateMachine.ts:105-114`), although the record's documentation says it is null when not paused (`src/types/index.ts:52-53`). `StateMachine.Coherent` states the documented rule for every status except ended-early, and `StateMachine.EndFromPauseKeepsPausedAt` shows the exception.
- The timer card subtracts only the paused total stored in the record (`src/components/TimerDisplay.tsx:35-44`). It does not subtract a pause in progress, unlike the state machine (`src/lib/sessionStateMachine.ts:213-216`). The two are modelled separately, as written:
  - `Timer.PausedTimerAgrees` relates them during a pause;
  - `Timer.EndedFromPauseShowsLastPause` shows what a session ended early while paused displays.

## Model

| member | source | states |
|---|---|---|
| `StateMachine.ElapsedMs` | src/lib/sessionStateMachine.ts:200-219 | elapsed time is 0 before the start and never negative; it is at least the time since the start less the stored paused total and the pause in progress, and equal to that whenever positive |
| `StateMachine.DurationIsElapsed` | src/lib/sessionStateMachine.ts:232-251 | the duration recorded at time t equals the elapsed time measured at t |
| `StateMachine.DurationMs` | src/lib/sessionStateMachine.ts:232-251 | the duration is 0 for a session never started and never negative; it is at least the time from the start to the end time less the stored paused total and the pause in progress, and equal to that whenever positive |
| `StateMachine.RemainingMs` | src/lib/sessionStateMachine.ts:224-227 | remaining time is never negative; remaining + elapsed covers the whole limit, and equals it exactly while time remains |
| `StateMachine.CheckTimeout` | src/lib/sessionStateMachine.ts:188-195 | only an active, started session can time out (never an idle or paused one) |
| `StateMachine.TimeoutIffNoneRemaining` | src/lib/sessionStateMachine.ts:188-195 | the timeout check fires exactly when the session is active, started, and has no time remaining |
| `StateMachine.ElapsedFrozenWhilePaused` | src/lib/sessionStateMachine.ts:207-216 | while paused, the elapsed time is the same at every clock reading |
| `StateMachine.ElapsedAdvancesWhileRunning` | src/lib/sessionStateMachine.ts:207-218 | while not paused, elapsed time never decreases, and once positive it advances one-for-one with the clock |
| `StateMachine.Fire` | src/lib/sessionStateMachine.ts:8-167 | every transition: an unknown id fails NotFound; a status outside the transition's source statuses fails InvalidTransition naming both; resume without a pause time fails; otherwise it succeeds, reaching the transition's target status, and only that record changes |
| `StateMachine.StartSession` | src/lib/sessionStateMachine.ts:8-27 | succeeds exactly from idle; the record becomes active with startedAt = now, every other field unchanged |
| `StateMachine.PauseSession` | src/lib/sessionStateMachine.ts:32-51 | succeeds exactly from active; the record becomes paused with pausedAt = now, every other field unchanged |
| `StateMachine.ResumeSession` | src/lib/sessionStateMachine.ts:56-89 | succeeds exactly from paused with a pause time, and fails MissingPausedAt without one; the paused total grows by the time since the pause, pausedAt is cleared, status is active, nothing else changes |
| `StateMachine.EndSessionEarly` | src/lib/sessionStateMachine.ts:94-115 | succeeds exactly from active or paused; sets ended-early, endedAt = now and the duration measured at now, nothing else |
| `StateMachine.CompleteSession` | src/lib/sessionStateMachine.ts:120-141 | succeeds exactly from active; sets complete, endedAt = now and the duration at now, nothing else |
| `StateMachine.TimeoutSession` | src/lib/sessionStateMachine.ts:146-167 | succeeds exactly from active; sets timeout, endedAt = now and the duration at now, nothing else |
| `StateMachine.CheckAutoComplete` | src/lib/sessionStateMachine.ts:172-183 | true exactly when the session exists, is active, and has at least its target number of stored kicks |
| `StateMachine.ValidTransitionsAgree` | src/lib/sessionStateMachine.ts:256-273 | a status is listed as a next status exactly when some transition the guards accept leads to it |
| `StateMachine.TerminalIsFinal` | src/lib/sessionStateMachine.ts:256-273 | from complete, timeout or ended-early every transition fails and no next status is listed |
| `StateMachine.FireKeepsCoherent` | src/types/index.ts:23-54 | every successful transition keeps a record's timestamps consistent with its status (started once running, ended once finished, pausedAt only while paused, except ended-early) |
| `StateMachine.EndFromPauseKeepsPausedAt` | src/lib/sessionStateMachine.ts:94-115 | ending early from a pause keeps the pause time in the finished record |
| `StateMachine.PauseExcludedFromDuration` | src/lib/sessionStateMachine.ts:239-250 | start at t0, pause at t1, resume at t2, end at t3 records a duration of (t3 − t0) − (t2 − t1) |
| `StateMachine.OnePause` | src/lib/sessionStateMachine.ts:71-88 | after start, pause and resume the session is active and its paused total is exactly the pause's length |
| `StateMachine.RunningEnd` | src/lib/sessionStateMachine.ts:239-250 | ending a running session records the time since the start less the paused total |
| `KickLog.GetKicksForSession` | src/lib/kickService.ts:48-57 | exactly the session's events (as a multiset), ascending by ordinal |
| `KickLog.GetKickCount` | src/lib/kickService.ts:86-88 | the count is the number of the session's events |
| `KickLog.FoldMax` | src/lib/kickService.ts:22-25 | the maximum is at least the start value, bounds every ordinal, and is attained unless it is the start value |
| `KickLog.RegisterKick` | src/lib/kickService.ts:10-43 | fails exactly when the event id is taken, writing nothing; otherwise appends one event with the given source and time whose ordinal is 1 or one above an existing ordinal and above all of the session's ordinals, caches that ordinal as kickCount, and changes no other session |
| `KickLog.RemoveId` | src/lib/kickService.ts:72-76 | what remains are events of the table, none with the removed id, and every event with another id is kept as often as the table holds it |
| `KickLog.DeleteLastKick` | src/lib/kickService.ts:63-81 | with no events returns none and changes nothing; otherwise removes and returns an event with the session's highest ordinal, caches the count less one, and leaves other sessions alone |
| `KickLog.CalculateKickIntervals` | src/lib/kickService.ts:93-106 | no gaps for fewer than two kicks; otherwise n − 1 gaps, entry i being kick i+1's time less kick i's, and the gaps sum to the time from the first kick to the last |
| `KickLog.SumAppend` | src/lib/kickService.ts:93-106 | the sum of the gaps grows by each appended gap |
| `LogInvariant.RegisterAppends` | src/lib/kickService.ts:22-33 | with ordinals 1..n, a registered kick gets ordinal n + 1 and lands at the end of the ordered list |
| `LogInvariant.RegisterPreserves` | src/lib/kickService.ts:36-40 | registering keeps the store's keys consistent and the session's log numbered 1..n with the count cached |
| `LogInvariant.RegisterOthers` | src/lib/kickService.ts:36-40 | registering leaves the kicks of every other session unchanged |
| `LogInvariant.DeleteDrops` | src/lib/kickService.ts:72-80 | with ordinals 1..n, undo removes exactly the kick numbered n and leaves kicks 1..n−1 in order |
| `LogInvariant.DeletePreserves` | src/lib/kickService.ts:63-81 | undo keeps the keys consistent and the log numbered 1..n with the count cached |
| `LogInvariant.DeleteOthers` | src/lib/kickService.ts:72-80 | undo leaves the kicks of every other session unchanged |
| `LogInvariant.MaxOfGapless` | src/lib/kickService.ts:22-25 | with ordinals 1..n the highest ordinal is the event count |
| `LogInvariant.RegisterKeepsStore` | src/lib/kickService.ts:36-40 | registering a kick for a stored session keeps the whole-store invariant (no orphan events, every log 1..n, every count cached) |
| `LogInvariant.DeleteKeepsStore` | src/lib/kickService.ts:72-80 | undo keeps the whole-store invariant |
| `LogInvariant.CreateKeepsStore` | src/lib/sessionService.ts:10-37 | creating a session with a zero or default count keeps the whole-store invariant |
| `LogInvariant.UpdateKeepsStore` | src/lib/sessionService.ts:49-54 | an update that does not write the count keeps the whole-store invariant |
| `LogInvariant.DeleteSessionKeepsStore` | src/lib/sessionService.ts:91-96 | the cascading delete keeps the whole-store invariant |
| `LogInvariant.RegisterThenDelete` | src/lib/kickService.ts:10-81 | undo right after a register restores the store exactly |
| `LogInvariant.ReplayPreserves` | src/lib/kickService.ts:10-81 | any sequence of registers and undos keeps a session's log numbered 1..n with the count cached |
| `LogInvariant.FromEmptyLog` | src/lib/kickService.ts:39-88 | from an empty log, after any registers and undos, the ordinals are exactly 1..n and kickCount = getKickCount = n |
| `SessionStore.ApplyPatch` | src/lib/sessionService.ts:49-54 | a partial update sets exactly the supplied fields and keeps every other one |
| `SessionStore.MergeDetermined` | src/lib/sessionService.ts:49-54 | a record that holds the patch and keeps the rest is the merged record: the merge is determined |
| `SessionStore.DiffRoundTrip` | src/lib/sessionService.ts:49-54 | applying the difference between two records with the same id turns the first into the second |
| `SessionStore.PatchIdempotent` | src/lib/sessionService.ts:49-54 | applying the same partial update twice is applying it once |
| `SessionStore.CreateSession` | src/lib/sessionService.ts:10-37 | fails with a constraint error exactly when the id is taken; otherwise adds exactly one record under that id, the overrides win over the defaults, and nothing else changes |
| `SessionStore.CreateDefaults` | src/lib/sessionService.ts:16-31 | without overrides a new session is idle, target 10, limit 7200 s, count 0, no timestamps, paused total 0, schema version 1 |
| `SessionStore.CreatePreservesValid` | src/lib/sessionService.ts:35 | every record stays under its own id after an add |
| `SessionStore.GetSession` | src/lib/sessionService.ts:42-44 | none exactly for an unknown id, otherwise the stored record |
| `SessionStore.UpdateSession` | src/lib/sessionService.ts:49-54 | only the supplied fields of the named record change; other records, the key set and the events are unchanged |
| `SessionStore.ListSessions` | src/lib/sessionService.ts:59-61 | every stored record exactly once |
| `SessionStore.KeyList` | src/lib/sessionService.ts:59-61 | every key exactly once |
| `SessionStore.GetAllSessions` | src/lib/sessionService.ts:59-61 | every stored record, newest creation time first |
| `SessionStore.CreatedWithin` | src/lib/sessionService.ts:66-74 | exactly the sessions created within both bounds inclusive, in creation order |
| `SessionStore.GetSessionsByDate` | src/lib/sessionService.ts:66-74 | exactly the stored sessions created within the day's bounds inclusive, in creation order |
| `SessionStore.GetActiveSession` | src/lib/sessionService.ts:79-86 | none exactly when no session is active or paused; otherwise a stored active or paused one, an active one whenever one exists |
| `SessionStore.DeleteSession` | src/lib/sessionService.ts:91-96 | the session and all its events are gone; every other session and every other session's events are untouched |
| `SessionStore.DeleteSessionLeaves` | src/lib/sessionService.ts:91-96 | every event left was in the table and belongs to another session |
| `Orchestrator.Reduce` | src/lib/SessionContext.tsx:45-64 | adding a kick appends it; dropping the last kick shortens by one (an empty list stays empty) and keeps a prefix; each setter leaves the other fields alone |
| `Orchestrator.AddThenRemove` | src/lib/SessionContext.tsx:55-58 | adding a kick and dropping the last one restores the state |
| `Orchestrator.ResetForgets` | src/lib/SessionContext.tsx:59-60 | reset gives the same cleared state whatever came before |
| `Orchestrator.TapKick` | src/lib/SessionContext.tsx:155-194 | a tap only ever appends to the in-memory kicks, at most one |
| `Orchestrator.TapActive` | src/lib/SessionContext.tsx:172-183 | a tap on a session that is not active changes nothing |
| `Orchestrator.AutoComplete` | src/lib/SessionContext.tsx:185-189 | below the target nothing changes; the kicks are never touched |
| `Orchestrator.TapOnActive` | src/lib/SessionContext.tsx:172-189 | on an active session one kick with the next ordinal is appended, the count is the old length + 1, and the session completes exactly when that reaches the target (stays active otherwise) |
| `Orchestrator.TapOnIdle` | src/lib/SessionContext.tsx:165-189 | on an idle current session the tap starts it at now, then appends one kick with the next ordinal, caches the old length + 1, and completes the session exactly when that reaches the target (active otherwise) |
| `Orchestrator.StartOnTap` | src/lib/SessionContext.tsx:165-169 | the start a tap makes on an idle session leaves a consistent world whose session is active from now, with the same kicks, target and error |
| `Orchestrator.TapIgnoredUnlessRunning` | src/lib/SessionContext.tsx:165-172 | a tap on a paused or finished session changes nothing |
| `Orchestrator.FirstTapStarts` | src/lib/SessionContext.tsx:157-183 | with no session a tap creates one, starts it at now, and records kick 1 at now |
| `Orchestrator.TapBelowTarget` | src/lib/SessionContext.tsx:175-189 | below the target a tap is exactly the store's register plus the appended kick and the new count |
| `Orchestrator.TapThenUndo` | src/lib/SessionContext.tsx:155-214 | undo right after a tap below the target restores store and state exactly |
| `Orchestrator.UndoKick` | src/lib/SessionContext.tsx:197-214 | no-op without a session or kicks; otherwise one kick fewer in memory and the cached count is the old length − 1 |
| `Orchestrator.UndoRestores` | src/lib/SessionContext.tsx:197-209 | undoing an appended kick whose store delete restores the store gives back the earlier world |
| `Orchestrator.RunTransition` | src/lib/SessionContext.tsx:217-255 | a handler whose guard does not hold, or with no session, changes nothing; kicks never change |
| `Orchestrator.PauseCurrent` | src/lib/SessionContext.tsx:217-227 | pause is a no-op unless the in-memory session is active |
| `Orchestrator.ResumeCurrent` | src/lib/SessionContext.tsx:230-240 | resume is a no-op unless the in-memory session is paused |
| `Orchestrator.EndEarly` | src/lib/SessionContext.tsx:243-255 | end-early is a no-op unless the in-memory session is active or paused |
| `Orchestrator.RunTransitionSucceeds` | src/lib/SessionContext.tsx:217-255 | when the guard holds and the status allows it, the handler reaches the target status and records no error |
| `Orchestrator.HandlersSucceed` | src/lib/SessionContext.tsx:217-255 | pause, resume and end-early from their allowed statuses reach paused, active and ended-early without error |
| `Orchestrator.TimeoutTick` | src/lib/SessionContext.tsx:122-137 | the poll changes nothing unless the timeout check fires; it never touches the kicks or the error |
| `Orchestrator.TimeoutTickFires` | src/lib/SessionContext.tsx:126-129 | when the check fires on a consistent state, the current session becomes timed out with endedAt = now and the duration at now, and the stored record is that same session |
| `Orchestrator.NoteOrNull` | src/lib/SessionContext.tsx:265 | an empty note is stored as null, any other note as written |
| `Orchestrator.SaveSessionDetails` | src/lib/SessionContext.tsx:258-281 | with a session, the stored and in-memory records get the rating and the note (empty as null) and nothing else; without one nothing changes |
| `Orchestrator.ResetSession` | src/lib/SessionContext.tsx:284-286 | the store is untouched and the state is cleared and not loading |
| `Orchestrator.StartNewSession` | src/lib/SessionContext.tsx:140-152 | a fresh idle session becomes current with no kicks and exactly one key is added; a taken id records the error and leaves the store; loading ends either way |
| `Orchestrator.LoadActiveSession` | src/lib/SessionContext.tsx:102-119 | loading makes an active or paused stored session current, with its stored kicks, exactly when one exists, and then stops loading |
| `Orchestrator.View` | src/lib/SessionContext.tsx:289-304 | with no session elapsed is 0, remaining 7200 s and target 10; with one, elapsed and remaining are the state machine's values at now, the target is the session's, the session is active exactly when active or paused and paused exactly when paused; remaining + elapsed covers the limit; the count is the number of kicks in memory |
| `Orchestrator.ViewCountIsStored` | src/lib/SessionContext.tsx:289-302 | in a consistent world the count on screen is the stored cached count and the number of stored events |
| `Orchestrator.TapConsistent` | src/lib/SessionContext.tsx:155-194 | a tap keeps the in-memory state mirroring the store and the store invariant |
| `Orchestrator.UndoConsistent` | src/lib/SessionContext.tsx:197-214 | undo keeps the state mirroring the store |
| `Orchestrator.PauseResumeEndConsistent` | src/lib/SessionContext.tsx:217-255 | pause, resume and end-early keep the state mirroring the store |
| `Orchestrator.TimeoutTickConsistent` | src/lib/SessionContext.tsx:122-137 | the poll keeps the state mirroring the store |
| `Orchestrator.SaveDetailsConsistent` | src/lib/SessionContext.tsx:258-281 | saving details keeps the state mirroring the store |
| `Orchestrator.StartNewAndResetConsistent` | src/lib/SessionContext.tsx:140-152 | starting a new session and resetting keep the state mirroring the store |
| `PreferenceStore.Merge` | src/lib/preferencesService.ts:22 | each field comes from the patch when it has one, otherwise from the base |
| `PreferenceStore.Whole` | src/lib/preferencesService.ts:31 | a full record stored whole reads back as itself over any base |
| `PreferenceStore.GetPreferences` | src/lib/preferencesService.ts:14-23 | the defaults when nothing is stored; otherwise each stored field is read as stored and each missing one as its default (target 10, limit 7200, soft click, vibration on, screen kept awake) |
| `PreferenceStore.SavePreferences` | src/lib/preferencesService.ts:28-33 | each field of the result is the change's value where it gives one and the current preference elsewhere; a complete record is stored, and reading it back gives the result |
| `PreferenceStore.SaveIdempotent` | src/lib/preferencesService.ts:28-33 | saving no change returns what is read, and saving a change twice is saving it once |
| `PreferenceStore.UpdatePreference` | src/lib/preferencesService.ts:38-43 | the changed key holds the new value and every other key keeps its current value |
| `PreferenceStore.ResetPreferences` | src/lib/preferencesService.ts:48-51 | returns the defaults and stores a complete record |
| `PreferenceStore.ResetThenGet` | src/lib/preferencesService.ts:14-51 | reading after a reset gives the defaults, whatever was stored |
| `Csv.DoubleQuotes` | src/lib/exportService.ts:20 | doubling the quotes lengthens the text by its number of quotes |
| `Csv.ReadDoubled` | src/lib/exportService.ts:20 | reading a quoted body back turns each doubled quote into one and stops at the closing quote: the doubling is undone exactly |
| `Csv.EscapeCSVField` | src/lib/exportService.ts:11-24 | null becomes the empty field; a value without comma, quote or line feed is unchanged; any other value is wrapped in quotes and grows by 2 plus its number of quotes |
| `Csv.ReadEscaped` | src/lib/exportService.ts:11-24 | an escaped field followed by a separator reads back as the value's text |
| `Csv.ReadEncodedRecord` | src/lib/exportService.ts:88-103 | a line of escaped fields joined by commas reads back as the fields' text |
| `Csv.ReadEncodedDocument` | src/lib/exportService.ts:106-108 | lines joined by line feeds read back as every record's text, one per line |
| `Csv.PlainJoin` | src/lib/exportService.ts:108 | joining column names that need no quoting is writing them escaped |
| `Export.GetExportableSessions` | src/lib/exportService.ts:45-55 | exactly the stored sessions that are complete, timed out or ended early and were started, ascending by start time, and on a valid store each once |
| `Export.SelectionCount` | src/lib/exportService.ts:45-55 | the selection has one entry per exportable stored session |
| `Export.GetExportableSessionCount` | src/lib/exportService.ts:188-191 | the count is the number of exportable stored sessions |
| `Export.RoundSeconds` | src/lib/exportService.ts:143 | the whole second nearest to a millisecond count, halves rounded up |
| `Export.SecondsSincePrevious` | src/lib/exportService.ts:139-144 | the field is empty exactly for a session's first kick |
| `Export.GapReadsBack` | src/lib/exportService.ts:139-144 | a later kick's field reads back as the rounded gap to the kick before it |
| `Export.KickLinesNumbered` | src/lib/exportService.ts:146-154 | with ordinals 1..n, the kick lines of a session are numbered 1, 2, … in order and only the first has an empty gap |
| `Export.SkipDropsNoKicks` | src/lib/exportService.ts:130-133 | in a consistent store a session skipped for a zero count has no kicks to lose |
| `Export.DetailedCount` | src/lib/exportService.ts:129-157 | the detailed file has one line per kick of every session with a non-zero count |
| `Export.SummaryReadsBack` | src/lib/exportService.ts:72-109 | the summary file is the byte-order mark, then a header that reads back as the column names, then one line per session reading back as its fields |
| `Export.DetailedReadsBack` | src/lib/exportService.ts:114-163 | the detailed file is the byte-order mark, the header, and one line per counted kick, each reading back as its fields |
| `Export.ExportSummaryCSV` | src/lib/exportService.ts:72-109 | the sessions written meet getExportableSessions' promise (stored, finished and started sessions, all of them, earliest start first, on a valid store each once); the file is the byte-order mark, the summary header, and one line per written session in that order, each reading back as that session's fields |
| `Export.ExportDetailedCSV` | src/lib/exportService.ts:114-163 | the sessions written meet getExportableSessions' promise; the file is the byte-order mark, the detailed header, and one line per counted kick of those sessions, the lines reading back as their fields |
| `Timer.PropsOf` | src/app/page.tsx:101-107 | the card receives the session's timestamps, limit and paused total, and is paused exactly when the session is; with no session, no start and the 7200 s fallback |
| `Timer.ElapsedMs` | src/components/TimerDisplay.tsx:35-44 | 0 before the start; never negative; at least the time from start to end (or now) less the stored paused total, and equal to it whenever positive |
| `Timer.View` | src/components/TimerDisplay.tsx:62-64 | remaining is never negative; remaining and elapsed together cover the limit, and make it up exactly while remaining is positive; timed out exactly when started and nothing remains; warning exactly in the last ten minutes; never both |
| `Timer.RunningTimerAgrees` | src/components/TimerDisplay.tsx:35-44 | while a session runs the card's elapsed time is the state machine's |
| `Timer.PausedTimerAgrees` | src/components/TimerDisplay.tsx:46-60 | the value the card froze at the pause is the state machine's elapsed time throughout the pause |
| `Timer.TimedOutIffCheckTimeout` | src/components/TimerDisplay.tsx:63 | for a running session the card shows timed out exactly when the timeout check fires |
| `Timer.EndedShowsDuration` | src/components/TimerDisplay.tsx:35-44 | a session ended while running shows its recorded duration at any later time |
| `Timer.EndedFromPauseShowsLastPause` | src/components/TimerDisplay.tsx:35-44 | a session ended early during a pause shows its duration plus the last pause |
| `Clock.FormatSeconds` | src/components/TimerDisplay.tsx:13-22 | the text ends in a colon and two digits, and has a second colon exactly when there is at least one hour |
| `Clock.ClockRoundTrip` | src/components/TimerDisplay.tsx:13-22 | reading "H:MM:SS" or "M:SS" back gives the number of seconds formatted |
| `Clock.ClockTextUnique` | src/components/TimerDisplay.tsx:13-22 | the reader accepts only the text formatTime writes: accepted text is the formatting of the seconds read from it, so each time has one text |
| `Clock.SameTextSameSeconds` | src/components/TimerDisplay.tsx:13-22 | two times show the same text exactly when they have the same whole seconds |
| `Clock.WholeSecondsFirst` | src/components/TimerDisplay.tsx:14-16 | hours, minutes and seconds of the floored second count equal those taken from the milliseconds directly |
| `Clock.Recombine` | src/components/TimerDisplay.tsx:14-16 | hours, minutes under 60 and seconds recombine to the total |
| `Decimal.NatRoundTrip` | src/lib/exportService.ts:97-98 | the decimal text of a count reads back as the count |
| `Decimal.IntRoundTrip` | src/lib/exportService.ts:143 | the decimal text of any integer, negative ones included, reads back as the integer |
| `Decimal.PadTwo` | src/components/TimerDisplay.tsx:19-21 | a number below 100 padded to two digits is two digits that read back as the number |
| `Sequences.SortBy` | src/lib/kickService.ts:56 | sorting gives a permutation of the input in key order |
| `Sequences.Filter` | src/lib/exportService.ts:53 | the filtered list holds only elements of the input that pass |
| `Sequences.FilterKeeps` | src/lib/exportService.ts:53 | every element that passes is kept |
| `Sequences.FilterMultiplicity` | src/lib/kickService.ts:72-76 | filtering keeps each passing element as often as the input holds it and drops every other |

## Left out

- IndexedDB and async execution. Every store call is a pure function on `Db`, and each `db.transaction` is one atomic update. Two handlers running at once, and stale React closures, are not modelled.
- Database errors other than a duplicate key are not modelled. The model's store cannot fail to update or delete, so the error branches of undo, save-details and loading (`src/lib/SessionContext.tsx:111-113`, `210-212`, `275-277`) cannot be reached and have no step.
- Orchestrator.TapKick: its own contract states only that a tap appends at most one kick. What a tap does in each status is stated by `Orchestrator.TapOnActive`, `Orchestrator.TapOnIdle`, `Orchestrator.FirstTapStarts` and `Orchestrator.TapIgnoredUnlessRunning`. A store failure (a taken id) records the tap error and keeps what the earlier steps did.
- Orchestrator.LoadActiveSession: requires a store that already satisfies the invariant, because start-up has nothing else to establish it from.
- uuid generation, the wall clock and the time-zone lookup are parameters (`Env`, `now`, `timezone`).
- The fixed preferences key `'user_prefs'` is implicit: the preferences table is at most one record.
- Locale formatting (`toLocaleDateString`, `toLocaleTimeString`) and `(durationSec / 60).toFixed(1)` are `Export.Formats` parameters. Floating-point text is not modelled.
- `downloadCSV` is not modelled. It is DOM and Blob work.
- Times are whole milliseconds. `durationSec` and `pausedDurationSec` are carried as `durationMs` and `pausedDurationMs`, which is exact because the source only divides them by 1000.
- Clock.FormatSeconds: its own contract states the shape of the text. The value shown is stated by `Clock.ClockRoundTrip` and `Clock.ClockTextUnique` through the reader `Clock.ParseClock`. `formatTime` receives fractional seconds. The model formats the floored whole seconds of a millisecond count (`Clock.FormatTime`), which is what the source's `Math.floor` calls produce for non-negative input.
- The `setInterval` refreshes of the timer card and of the timeout poll are not modelled. The poll is one `Orchestrator.TimeoutTick` step. The card is modelled as computing its value at each refresh; while paused it keeps the value computed when the pause began (`Timer.PausedTimerAgrees`). A page reloaded during a pause computes that value at load time instead, and this is not modelled.
- `getSessionsByDate` takes the day's first and last millisecond as parameters. `startOfDay` and `endOfDay` depend on the time zone.
- The storage order of events is abstracted. Every query that depends on order sorts by ordinal, start time or creation time. Ties among equal creation times in `getAllSessions` and `getSessionsByDate` are left unordered. So are ties among equal start times in the export (`src/lib/exportService.ts:46-54`). There the source's stable sort keeps the order of the status-index query, which for equal start times is by status value and then by id.
- The strength rating is a type from 1 to 5 (`Types.Rating`). The source casts any number to that type without checking (`src/lib/SessionContext.tsx:264`).
- React rendering, the preferences provider, and the sound, vibration and wake-lock APIs are not part of this model.
- KickLog.CalculateKickIntervals: the gaps are whole milliseconds. The source divides each gap by 1000 into fractional seconds.
- Export.ExportSummaryCSV, Export.ExportDetailedCSV: besides the file text, each returns the sessions it wrote, so that the contract can name them. The source returns only the text. The contract pins those sessions down up to the order of equal start times (see the note on ties).
- Timestamps are stored by the source as ISO-8601 strings and compared as strings. The model compares the milliseconds they denote, which orders them the same way for strings of one format.
