# Verified model of the desktop client's protocol and state logic

The client keeps SSH sessions, terminals, telemetry charts and alerts in step across a Rust
backend and React windows. These Dafny modules model the parts of it that are protocols,
state machines or algorithms, and prove what holds of them over every input and every run.

- **Alerts** (`AlertRules`, `AlertHistory`, `AlertState`, `AlertEngine`, `AlertKeyed`,
  `AlertProjection`, `AlertRuns`, `AlertReadings`, `AlertOrder`, `AlertEpisodes`, `AlertReplica`,
  `AlertDelivery`). The engine is a class over the maps `phases`, `lastNotified` and `active`.
  Each of its methods is proved against a function on its state; a run of calls projects onto
  a small machine per key; that machine refines a declarative description of the key's
  readings, and those readings are told from the inputs alone. Everything about whole runs
  follows: what fires and when, the hysteresis, alternation, cooldown spacing, what `active`
  holds, that scopes do not interfere, and when the window's copy agrees.
- **Usage history** (`TelemetryPoints`, `TelemetryServer`, `TelemetryReadings`,
  `TelemetryHistory`, `TelemetryEdge`, `TelemetryPolls`, `TelemetryWindow`, `TelemetryRaces`,
  `TelemetryRemoval`). The backend's record, removal and snapshot, and the hook that folds
  deltas into what it holds. Polling refines fetching, with polls overlapping freely as long
  as replies arrive in order.
- **Automatic reconnect** (`Reconnect`, `ReconnectHook`, `ReconnectSessions`,
  `ReconnectBackend`), **session store** (`Sessions`, `SessionStore`, `SessionEffects`,
  `SessionRaces`, `SessionTelemetry`), **terminal input** (`TerminalInput`, `TerminalEntry`) and
  the **concurrency mapper** (`Concurrency`, `ConcurrencyPool`). Each is a state machine whose
  steps are the points where JavaScript can interleave, with an invariant over every run,
  and a class whose methods are proved to take exactly those steps. The scheduler and the
  store also project onto a small machine for each session.
- **Algorithms**: jump-host candidates (`JumpHosts`), directory order (`RemoteSort`), chart
  lines (`Segments`).
- **Text formats**: host-key challenges and the prompt loop (`Strings`, `HostKey`,
  `HostKeyPrompt`, `PermanentErrors`), shell quoting against a reader of POSIX shell words
  (`ShellQuote`).

Numbers that the code handles as `f64` are reals with NaN and the infinities (`Floats`);
rounding is not modelled. The Rust enum value `SeverityLevel::Normal` is called `Healthy`, so
as not to clash with the phase of the same name.

## Where the code and its comments disagree

The model follows the code; each line names the lemma that shows it.

- `sanitize` is documented to leave no rule that can never fire. It leaves the idle rule with
  a zero `util_below`, which can never fire (`AlertRules.ZeroUtilBelowNeverFires`); it can fire
  exactly when `util_below` is positive (`AlertRules.SanitizedIdleRule`).
- `set_settings` clears the phases but not `active`: an alert that was firing stays active
  with no resolution (`AlertRuns.SettingsStrand`). `AlertRuns.ActiveOverRuns` says exactly
  which keys are stranded.
- `forget_scope` emits no events, so the window's copy still agrees exactly when the scope had
  nothing active (`AlertReplica.ForgetBreaksReplica`).
- The history a chart holds may keep one bucket on the edge of the window that the backend has
  dropped (`TelemetryHistory.EdgeDiffers`). On everything newer the two are equal. On the edge
  they are, when the clock is inside a bucket, exactly if nothing is held there and, when it is
  at the start of one, exactly if nothing is held there or another bucket of the window is
  missing (`TelemetryWindow.HeldIsServersWindow`).
- A history that is removed and begun anew while a chart is open leaves the chart with buckets a
  fetch would not give (`TelemetryRemoval.RemovalLeavesOldBuckets`);
  `TelemetryPolls.AgreementAcrossRemoval` says exactly when it does not.
- A history poll overtaken by a later one takes what is held back, and the bucket that the
  request then in flight starts past is never held again (`TelemetryRaces.OutOfOrderLeavesHole`,
  `TelemetryRaces.HoleStays`). A delta merges rightly, whatever is recorded next, exactly when it
  starts no later than the newest bucket held (`TelemetryHistory.SinceIsExact`).
- An unknown-key challenge whose host holds the changed-key sentinel is read as a changed key;
  `HostKey.ParsesUnknown` gives the exact condition.
- The comment on the jump-host candidates calls what is left out unresolvable. It is, on any
  profiles; but what is offered can be resolved only if its own chain does not run into a cycle
  (`JumpHosts.ResolvableWhenOffered`, `JumpHosts.AllOfferedResolve`). Such cycles come from
  importing an `ssh_config` in which two hosts jump through each other: the import
  (`src-tauri/src/ssh/ssh_config.rs:660-718`, `src-tauri/src/ssh/session.rs:697-709`) saves
  without the test that a save from the editor has to pass (`JumpHosts.EnsureNoJumpLoop`,
  `JumpHosts.CircularProfileIsOffered`).
- Handlers that wait for the backend act on what they saw before. `Sessions.StepKeeps` gives the
  exact condition for every event. A split answered after its session ended leaves a pane of a
  session that is not connected (`SessionRaces.SplitNeedsItsConnection`,
  `SessionRaces.SplitOpensOnLostSession`). A split that is closed
  while another session's connection drops, or while the user goes to another session, leaves a
  session shown that is not connected (`SessionRaces.ClosedSplitShowsLostSession`,
  `SessionRaces.ClosedSplitKeepsEndedSession`, condition in
  `SessionRaces.ClosedSplitNeedsItsFocus`).
- A disconnect removes whatever its session shows when the answer comes. It takes only what was
  there when the user asked exactly when nothing opened for the session in between is still live
  (`SessionRaces.DisconnectTakesWhatItSaw`). It takes a new connection when the terminals' close
  events reach the window before the answer: the session is then off the list, so choosing it in
  the sidebar connects (`src/components/SessionSidebar.tsx:425-455`) instead of showing it
  (`SessionRaces.LateDisconnectDropsNewConnection`).
- The window's alerts are fed by a thread for each batch. They agree with the engine's exactly
  when each key's last event delivered is its last emitted, or neither fired
  (`AlertDelivery.DeliveredAgrees`); a resolution that overtakes its fire leaves the alert on
  (`AlertDelivery.OvertakenAlertStays`).
- A reconnect that is no longer wanted when it succeeds is handed back by disconnecting its
  session, not its connection. It takes only its own exactly when nothing opened for the
  session since is still live (`ReconnectBackend.HandBackTakesItsOwn`); it takes a pane that
  the user reconnected meanwhile (`ReconnectBackend.HandBackTakesTheUsers`).
- Telemetry that arrives after its session has ended is stored all the same, and shown for the
  next connection until that sends some (`SessionTelemetry.LateTelemetryStays`);
  `SessionTelemetry.TelemetryOutlivesConnection` says exactly when it is there.
- A failing worker of the mapper does not stop the other runners
  (`Concurrency.FailuresDoNotStopOthers`).

## Model

| member | source | states |
|---|---|---|
| AlertRules.SanitizeRange | src-tauri/src/alerts.rs:105-140 | Sanitising lands in range for every input, NaN and infinities included, changes a setting exactly when something was out of range, and is idempotent. |
| AlertRules.SanitizeIsNearest | src-tauri/src/alerts.rs:97-140 | Sanitising moves each number to the nearest in its range, or to a fixed one of its range if it is none, and leaves every switch as it is. |
| AlertRules.DefaultsAreInRange | src-tauri/src/alerts.rs:88-103 | The default settings are in range and survive sanitising. |
| AlertRules.RangeIsUsable | src-tauri/src/alerts.rs:113-121 | A rule in range fires at some reading and clears at some, in plain arithmetic, and no value at all does both. |
| AlertRules.SanitizedRulesAreUsable | src-tauri/src/alerts.rs:123-140 | The documented promise of `sanitize`, for all four threshold rules. |
| AlertRules.SanitizedIdleRule | src-tauri/src/alerts.rs:130-135 | A sanitised idle rule can always clear, and can fire exactly when `util_below` is positive. |
| AlertRules.ZeroUtilBelowNeverFires | src-tauri/src/alerts.rs:123-135 | The setting that survives sanitising and can never fire. |
| AlertRules.BandIs | src-tauri/src/alerts.rs:287-288 | On every value there is, NaN and the infinities included, a rule with finite limits breaches exactly at or over its threshold and clears exactly below its threshold less its hysteresis. |
| AlertRules.ThresholdCheckCompares | src-tauri/src/alerts.rs:274-291 | A disabled rule makes no check; an enabled one makes one, of its own subject and value, that decides nothing without a value. |
| AlertRules.IdleCheckCompares | src-tauri/src/alerts.rs:449-470 | The idle rule breaches below `util_below` use with at least `min_vram_percent` of memory held, clears otherwise, and decides nothing without both values. |
| AlertHistory.PhaseIsHistory | src-tauri/src/alerts.rs:158-190 | For every list of readings, the transitions `step` makes are exactly the documented ones: a rule fires at a breach whose unbroken streak is at least the sustain time old, missing readings allowed inside it, and resolves at the first present reading that clears; the stored phase is the described one, and a pending phase names the first breach of the streak. |
| Matches.MatchesUnique | src-tauri/src/alerts.rs:158-190 | The description determines the transitions: no other list meets it. |
| AlertHistory.TransitionsAlternate | src-tauri/src/alerts.rs:160-190 | Fired and resolved alternate from fired, and the phase is Firing exactly after an odd number of transitions. |
| AlertHistory.RefireNeedsClear | src-tauri/src/alerts.rs:160-190 | A rule fires at values at or over its threshold, and between two fires there is a value below its threshold less its hysteresis. |
| AlertHistory.FiresNeedDescents | src-tauri/src/alerts.rs:113-140 | A sanitised rule fires at most once more than its values descended from the threshold to below the threshold less the hysteresis. |
| AlertHistory.HoldsInBand | src-tauri/src/alerts.rs:180-188 | A firing rule resolves exactly at a value below the threshold less the hysteresis; inside the band, at NaN or with no value it stays firing. |
| AlertEpisodes.EventsAreChanges | src-tauri/src/alerts.rs:357-415 | Since its last reset a key has emitted one event for each documented change of its readings, of that kind and at that reading's time, and no other. |
| AlertEpisodes.EventsAreDescribed | src-tauri/src/alerts.rs:345-588 | After every run of the engine the latest events of each key are exactly the documented changes of its readings since the last reset. |
| AlertEpisodes.RunAppliesRule | src-tauri/src/alerts.rs:274-291 | Since its last reset a threshold key has met only the rule of the settings in force. |
| AlertReadings.EvaluationReads | src-tauri/src/alerts.rs:417-491 | From the input of a call alone: the operations of an evaluation on a key are one for each reading of its own subject (a GPU's temperature, its memory in use, the host's memory, a mount's use, or both values for idleness), judged by the rule of its kind; none for another scope, a disabled rule, or with alerts off. |
| AlertReadings.GpuIsReadOnce | src-tauri/src/alerts.rs:435-470 | Where keys do not repeat, each enabled GPU rule is applied once, to that GPU's own value. |
| AlertReadings.DiskIsReadOnce | src-tauri/src/alerts.rs:479-484 | Where mounts do not repeat, the disk rule is applied once, to that mount's percentage. |
| AlertReadings.AbsentIsNotRead | src-tauri/src/alerts.rs:427-484 | What is not in the input is not judged. |
| AlertReadings.EventsAreAboutInput | src-tauri/src/alerts.rs:357-491 | In any state, every event of an evaluation has its scope, host and time, and shows the value and limit of a reading in the input of its own subject, at which its rule breaches if it fired and clears if it resolved; a resolution never notifies. |
| AlertReadings.RunReadsOwn | src-tauri/src/alerts.rs:345-491 | Over every run the values judged for a threshold key since its last reset are the readings of its own subject in the calls of its scope, in order. |
| AlertReadings.FiringHoldsInBand | src-tauri/src/alerts.rs:180-188 | In any state of the engine, a firing alert says nothing and stays while no reading of its subject is below the threshold less the hysteresis. |
| AlertReadings.ClearResolves | src-tauri/src/alerts.rs:184-188 | One reading below it resolves the alert, in the phases, in `active` and with one event that shows the reading. |
| AlertReadings.LlmReads | src-tauri/src/alerts.rs:526-570 | A change of level is judged exactly if it goes into Critical from a known healthier level or out of Critical, for its own instance. |
| AlertReadings.LlmEventIs | src-tauri/src/alerts.rs:548-577 | An instance's event shows its name and time and neither value nor limit, and fired exactly if the new level is Critical. |
| AlertReadings.CriticalIsActive | src-tauri/src/alerts.rs:522-578 | Over any changes of level the alert of an instance is firing and active exactly if the instance is critical and was seen to become so from a known healthier level. |
| AlertEpisodes.ReadingsAreOwn | src-tauri/src/alerts.rs:274-491 | So the history of a threshold key since its last reset is that of its own subject's values judged by the rule in force. |
| AlertEpisodes.RunFiresNeedDescents | src-tauri/src/alerts.rs:123-190 | Over every run, under sanitised settings, a threshold key's fired events since its last reset are at most one more than the descents of its subject's readings from the threshold to below the threshold less the hysteresis. |
| AlertEpisodes.RunRefireNeedsClear | src-tauri/src/alerts.rs:160-190 | Over every run, two fired events of a threshold key since its last reset were sent at readings of its subject at or over the threshold, and between them a reading was below the threshold less the hysteresis. |
| AlertEngine.AlertEngine.constructor | src-tauri/src/alerts.rs:253-260 | A new engine has no phases, notifications or active alerts. |
| AlertEngine.AlertEngine.SetSettings | src-tauri/src/alerts.rs:345-354 | New settings clear every phase and touch nothing else. |
| AlertEngine.AlertEngine.Apply | src-tauri/src/alerts.rs:357-415 | One rule: the new maps and the event are those of the specification of a check, whose history meaning the lemmas below give. |
| AlertEngine.AlertEngine.EvaluateTelemetry | src-tauri/src/alerts.rs:417-491 | A reading: all checks in order, then the tracking of their events; `AlertReadings` and `AlertOrder` say from the input what they read and in what order. |
| AlertEngine.AlertEngine.ApplyChecks | src-tauri/src/alerts.rs:485-488 | The loop over the checks applies each to the state the one before it left. |
| AlertEngine.AlertEngine.BuildChecks | src-tauri/src/alerts.rs:427-484 | The loops over GPUs and disks build the specified list of checks. |
| AlertOrder.EventsAscend | src-tauri/src/alerts.rs:427-489 | The events of an evaluation come in the order of the input: GPU by GPU with temperature, memory and idleness, then the host's memory, then disk by disk; no rule of a subject sends two. |
| AlertEngine.AlertEngine.TrackEvents | src-tauri/src/alerts.rs:494-510 | `active` after a batch is the batch folded into it, fired in and resolved out. |
| AlertEngine.AlertEngine.LlmTransition | src-tauri/src/alerts.rs:526-578 | A severity change: only a move into Critical from a known healthier level fires, only a move out of Critical resolves. |
| AlertEngine.AlertEngine.ForgetScope | src-tauri/src/alerts.rs:581-588 | The scope's phases and active alerts go; notifications stay remembered. |
| AlertKeyed.KeyIsHistory | src-tauri/src/alerts.rs:357-381 | A key's phase is that of its readings since the last reset, and nothing else in its past matters. |
| AlertKeyed.EventsAlternate | src-tauri/src/alerts.rs:160-190 | Between resets a key's events alternate fired, resolved, from fired; the key is firing exactly when the last of them fired. |
| AlertKeyed.EventsSinceAreLast | src-tauri/src/alerts.rs:345-415 | The events since the last reset are the last ones the key had. |
| AlertKeyed.ActiveIsHistory | src-tauri/src/alerts.rs:494-510 | `active` holds a key exactly when its newest event since it was forgotten fired, and then that event; it holds a key that is not firing exactly when new settings stranded it. |
| AlertKeyed.LastNotifiedIsHistory | src-tauri/src/alerts.rs:382-392 | What is remembered is the key's last notification of the whole run, across resets. |
| AlertKeyed.SilentOnlyInCooldown | src-tauri/src/alerts.rs:382-392 | A fired event is silent exactly when the last notification is younger than the cooldown in force. |
| AlertKeyed.NotificationsSpaced | src-tauri/src/alerts.rs:382-392 | Any two notifications of a key are at least the later one's cooldown apart. |
| AlertProjection.TrackingCommutes | src-tauri/src/alerts.rs:485-490 | Tracking a batch at its end gives the state of tracking each event as it comes. |
| AlertProjection.CallProjects | src-tauri/src/alerts.rs:345-588 | Each public call does to a key what the key's own machine does, in any state. |
| AlertProjection.RunProjects | src-tauri/src/alerts.rs:345-588 | After every run the maps at a key, and its events, are those of the key's own machine. |
| AlertRuns.PhasesAreHistories | src-tauri/src/alerts.rs:345-588 | After every run each key's phase is the documented one for its readings since the last reset. |
| AlertRuns.RunEventsAlternate | src-tauri/src/alerts.rs:345-588 | Over every run each key's events since its last reset alternate, and are its latest. |
| AlertRuns.ActiveOverRuns | src-tauri/src/alerts.rs:345-354 | A firing key is always in `active` with a fired event of its own; the others in it are exactly the stranded ones. |
| AlertRuns.ActiveIsFiring | src-tauri/src/alerts.rs:494-510 | On runs without new settings `active` holds exactly the firing keys. |
| AlertRuns.SettingsStrand | src-tauri/src/alerts.rs:345-354 | A run after which an alert is active, its phase is gone and nothing was resolved. |
| AlertRuns.NotificationsAreSpaced | src-tauri/src/alerts.rs:382-392 | Over every run, across settings and forgotten scopes, a notification comes at least the cooldown in force after everything notified before for its key. |
| AlertRuns.OthersUnseen | src-tauri/src/alerts.rs:357-415 | A call of another scope changes nothing in this scope and emits nothing for it. |
| AlertRuns.OwnAlike | src-tauri/src/alerts.rs:417-491 | A call of a scope depends on that scope and the settings only. |
| AlertRuns.ScopesDoNotInterfere | src-tauri/src/alerts.rs:357-588 | Dropping every other scope's calls from a run leaves a scope's events, phases, cooldowns and active alerts the same. |
| AlertRuns.ForgetIsLocal | src-tauri/src/alerts.rs:581-588 | Forgetting a scope makes its keys as new but for the cooldown memory, and touches no other scope. |
| AlertReplica.AlertStore.PushEvent | src/stores/alertStore.ts:25-37 | Pushing an event sets or deletes its rule in its scope, and puts it in front of the newest fifty. |
| AlertReplica.RecentIsNewest | src/stores/alertStore.ts:33-36 | The list shown holds the last fifty events there were, or all of them, newest first. |
| AlertReplica.RuleKeyInjective | src/stores/alertStore.ts:17-18 | Rule keys are equal only for the same kind and subject, colons in subjects included. |
| AlertReplica.PushAgrees | src/stores/alertStore.ts:25-37 | A store that agrees with the engine still does once both have taken an event. |
| AlertReplica.ReplicaAgrees | src/stores/alertStore.ts:11-12 | On every run without forgotten scopes, the store fed with the events equals the engine's `active`, scope by scope. |
| AlertReplica.ForgetBreaksReplica | src-tauri/src/alerts.rs:580-588 | After a scope is forgotten the store still agrees exactly when the scope had nothing active. |
| AlertReplica.CountsAgree | src/stores/alertStore.ts:40-46 | The count shown is the number of the engine's active alerts of the scope. |
| AlertDelivery.DeliveredAgrees | src-tauri/src/alerts.rs:591-631 | In whatever order a run's events reach the window, its copy equals the engine's `active` exactly when for every key the last event delivered and the last one emitted are the same or neither fired. |
| AlertDelivery.OrderOfEachKeySuffices | src-tauri/src/alerts.rs:595-631 | Events of different keys may overtake each other freely. |
| AlertDelivery.OvertakenAlertStays | src-tauri/src/alerts.rs:600-631 | Two batches of one key may not: a resolution that overtakes its fire leaves the window with an alert the engine has resolved. |
| TelemetryServer.AddReadingGrows | src-tauri/src/ssh/telemetry_history.rs:161-173 | Adding a reading changes the newest bucket only. |
| TelemetryServer.TrimHas | src-tauri/src/ssh/telemetry_history.rs:175-183 | Trimming keeps a suffix inside the window, and all it drops, by age or by number, is at least a window older than the newest bucket. |
| TelemetryServer.FirstRecord | src-tauri/src/ssh/telemetry_history.rs:193-244 | A session's first reading gives a well-formed history. |
| TelemetryServer.RecordMovesOn | src-tauri/src/ssh/telemetry_history.rs:193-244 | Recording keeps every series sorted, aligned and within the window, and of what stays in the window changes the newest bucket only, for the system and every GPU. |
| TelemetryReadings.BucketsHoldReadings | src-tauri/src/ssh/telemetry_history.rs:161-244 | Over every run of recordings, for the system and every GPU: each bucket starts at a multiple of five seconds and holds exactly the readings of its five seconds, in order, and every reading of the hour before the newest bucket has its bucket. |
| TelemetryPoints.MergeSeries | src/hooks/useTelemetryHistory.ts:11-26 | For one series, merging a delta into what agreed with an earlier state of the backend agrees with the later state. |
| TelemetryPoints.AgreeIsEquality | src/hooks/useTelemetryHistory.ts:43-54 | Agreeing is equality of the two series on everything newer than the window's edge. |
| TelemetryEdge.TrimAtEdge | src-tauri/src/ssh/telemetry_history.rs:175-183 | The backend drops a bucket on the edge only by age or because the rest of the window is full, and in both cases it does. |
| TelemetryEdge.FullByCount | src-tauri/src/ssh/telemetry_history.rs:16-18 | The window holds as many newer buckets as the backend keeps exactly when none is missing. |
| TelemetryEdge.EdgeIsExact | src/hooks/useTelemetryHistory.ts:39-54 | The closed windows are equal exactly when nothing is held on the edge or, with the clock at the start of a bucket, a newer bucket of the window is missing. |
| TelemetryHistory.EdgeDiffers | src/hooks/useTelemetryHistory.ts:39-43 | A history after which the edge bucket is held and no longer served. |
| TelemetryHistory.MergeAgrees | src/hooks/useTelemetryHistory.ts:28-54 | The merge theorem, for the system series, every GPU and the set of GPUs. |
| TelemetryHistory.FullFetchAgrees | src/hooks/useTelemetryHistory.ts:36-38 | A fetch of everything agrees with the state it was taken from. |
| TelemetryHistory.OtherSessionReplaced | src/hooks/useTelemetryHistory.ts:39-41 | Nothing of another session is kept: merging a full fetch of a session into one of another agrees with the session's own history. |
| TelemetryHistory.OwnSinceIsEarly | src/hooks/useTelemetryHistory.ts:56-65 | The `since` the hook computes is never past the newest bucket of the state it holds. |
| TelemetryHistory.SinceIsExact | src/hooks/useTelemetryHistory.ts:19-25 | A delta merges rightly, whatever is recorded next, exactly when it starts no later than the newest bucket held. |
| TelemetryHistory.Poller.NextSince | src/hooks/useTelemetryHistory.ts:56-65 | The request starts at the least of the last times of the series that have points, which is one of them, and at none if none has. |
| TelemetryHistory.Poller.Receive | src/hooks/useTelemetryHistory.ts:90-94 | A reply is merged into what is held; an absent one changes nothing. |
| TelemetryHistory.CarriesIsAgree | src/hooks/useTelemetryHistory.ts:32-54 | What carries the backend's history agrees with it exactly when no series holds a bucket inside the window older than its first. |
| TelemetryHistory.MergeStillCarries | src/hooks/useTelemetryHistory.ts:28-54 | Merging keeps that, while the history goes on. |
| TelemetryHistory.MergeAcrossCarries | src/hooks/useTelemetryHistory.ts:28-54 | And when the delta is of a history begun anew. |
| TelemetryPolls.PollStep | src/hooks/useTelemetryHistory.ts:84-100 | Recording, removing, asking, answering and receiving, interleaved with replies in order, keep the polling invariant. |
| TelemetryPolls.PollingRefinesFetching | src/hooks/useTelemetryHistory.ts:67-100 | In every run, overlapping polls included, what is held after a reply agrees with the state the reply was answered from if no history was removed, and otherwise exactly when nothing older than the new history is held inside the window. |
| TelemetryPolls.AgreementAcrossRemoval | src-tauri/src/ssh/terminal.rs:1004-1013 | A reply from a history begun since the last one leaves agreement exactly when nothing held before it, of the series it has, was inside the window and older than their first new bucket. |
| TelemetryRemoval.RemovalLeavesOldBuckets | src-tauri/src/ssh/terminal.rs:1003-1012 | A run with every reply in order after which the chart holds a bucket of a history that was removed, and does not agree. |
| TelemetryWindow.HeldIsServersWindow | src/hooks/useTelemetryHistory.ts:67-100 | In runs without removals, after each reply the system series and every GPU's equal the backend's on everything newer than the window's edge, and on the edge under exactly the condition above. |
| TelemetryWindow.RunEdges | src/hooks/useTelemetryHistory.ts:84-100 | Over such runs what is held on the edge is the backend's, unless the backend has dropped it. |
| TelemetryRaces.OutOfOrderLeavesHole | src/hooks/useTelemetryHistory.ts:84-100 | A run of the hook against the backend with one overtaken reply, after which a bucket the backend has is not held; the request then in flight starts past what is held. |
| TelemetryRaces.HoleStays | src/hooks/useTelemetryHistory.ts:56-100 | A bucket that every series held and every request in flight have gone past is never held again, whatever follows, and what is held agrees with no state that has it. |
| Reconnect.DelayBounds | src/hooks/useAutoReconnect.ts:7-29 | Delays never shrink with the attempt, and stay between two and sixty seconds; `ReconnectSessions.StepProjects` gives each. |
| Reconnect.AttemptKeeps | src/hooks/useAutoReconnect.ts:44-86 | An attempt, from whatever triggers it, keeps the invariant. |
| Reconnect.ResolvedKeeps | src/hooks/useAutoReconnect.ts:88-104 | So does a connect that succeeds, adopted or handed back. |
| Reconnect.RejectedKeeps | src/hooks/useAutoReconnect.ts:105-120 | So does one that fails, for good or to be tried again. |
| Reconnect.EffectKeeps | src/hooks/useAutoReconnect.ts:126-145 | The scheduling effect keeps it and leaves no lost session without a timer or a connect. |
| Reconnect.StepKeeps | src/hooks/useAutoReconnect.ts:44-170 | Every step of timers, window events, results and store changes keeps it. |
| Reconnect.RunKeeps | src/hooks/useAutoReconnect.ts:37-171 | Every interleaving keeps it. |
| Reconnect.AtMostOneConnect | src/hooks/useAutoReconnect.ts:44-145 | In every interleaving a session has one connect in flight at most, every armed timer is on the map, after the effect every lost session has a timer or a connect, and every connect that succeeded was either adopted or handed back. |
| Reconnect.SuccessIsAdoptedOrHandedBack | src/hooks/useAutoReconnect.ts:88-104 | A success is adopted exactly when its session is still lost, which is then connected and no longer lost; otherwise nothing is connected and the connection is handed back. |
| Reconnect.OnlySuccessesAreLogged | src/hooks/useAutoReconnect.ts:44-145 | No other step adopts or hands back a connection. |
| Reconnect.AtMostTenFailures | src/hooks/useAutoReconnect.ts:105-120 | One lost episode has ten failing connects at most, and the tenth ends it. |
| ReconnectSessions.StepProjects | src/hooks/useAutoReconnect.ts:44-168 | Every event of the hook, loops and interleavings included, does to each session what that session's own machine says (attempts, delays of 2, 5, 15, 30 and 60 seconds, successes, failures, the tidying effect), and nothing to a session it does not concern. |
| ReconnectSessions.ConnectsWhenWanted | src/hooks/useAutoReconnect.ts:47-83 | Over every run a connect of a session is opened exactly by its timer or a general retry when the session is lost, not connected, has a profile, and is not being connected, with the network on. |
| ReconnectSessions.FailureDecides | src/hooks/useAutoReconnect.ts:105-119 | Over every run, after a failed connect a lost session is still lost exactly if the error is not final and it was not the tenth; then one timer is armed, with the delay of the new count; else there is none and the count is forgotten. |
| ReconnectSessions.FinalErrorEndsRetries | src/hooks/useAutoReconnect.ts:105-118 | Over every run, after an error no retry can mend the session has no timer and no connect is opened for it until it is marked lost again. |
| ReconnectSessions.ChallengeEndsRetries | src/hooks/useAutoReconnect.ts:11-25 | So it is after any error that parses as a host-key challenge. |
| ReconnectSessions.EffectTidies | src/hooks/useAutoReconnect.ts:127-146 | After the effect a session has a timer only if it is lost, and every lost one that is not being connected has. |
| ReconnectBackend.LiveIsHistory | src-tauri/src/ssh/terminal.rs:192-217 | After every run of the hook with the backend a session's open terminals are those opened for it and not stopped since, where each connect, and each `disconnect_terminal`, stops all there are. |
| ReconnectBackend.HandBackTakesItsOwn | src/hooks/useAutoReconnect.ts:88-98 | The disconnect for a connect handed back stops all its session has open and nothing else; that is the connect's own terminal and no more exactly when nothing opened for the session since it was registered is still live. |
| ReconnectBackend.HandBackTakesTheUsers | src/components/TerminalPane.tsx:1304-1309 | A run in which the user reconnects the pane meanwhile and the hand-back stops that connection: nothing is open for the session, which the window shows as connected. |
| ReconnectHook.AutoReconnect.FinishSession | src/hooks/useAutoReconnect.ts:58-61 | Finishing forgets the count and clears the loss. |
| ReconnectHook.AutoReconnect.ScheduleRetry | src/hooks/useAutoReconnect.ts:71-77 | A retry arms a timer with the delay of the current count. |
| ReconnectHook.AutoReconnect.AttemptNow | src/hooks/useAutoReconnect.ts:44-86 | The attempt takes exactly the specified step, early returns included. |
| ReconnectHook.AutoReconnect.RetryAllNow | src/hooks/useAutoReconnect.ts:149-156 | Coming back attempts every session lost at that moment, in order. |
| ReconnectHook.AutoReconnect.OnConnected | src/hooks/useAutoReconnect.ts:88-104 | The success handler takes the specified step. |
| ReconnectHook.AutoReconnect.OnFailed | src/hooks/useAutoReconnect.ts:105-120 | The failure handler takes the specified step. |
| ReconnectHook.AutoReconnect.OnFinally | src/hooks/useAutoReconnect.ts:121-123 | The session is no longer in flight. |
| ReconnectHook.AutoReconnect.ArmNewlyLost | src/hooks/useAutoReconnect.ts:129-137 | The first loop arms a timer for exactly the lost sessions with neither timer nor connect. |
| ReconnectHook.AutoReconnect.PruneTimers | src/hooks/useAutoReconnect.ts:138-144 | The second loop drops the timers and counts of exactly the sessions no longer lost. |
| ReconnectHook.AutoReconnect.RunSchedulingEffect | src/hooks/useAutoReconnect.ts:127-145 | The effect takes the specified step. |
| Sessions.RunKeeps | src/stores/sessionStore.ts:47-140 | Over every run with fresh terminal ids, as long as every step is safe and no longer: connected ids are free of duplicates and are the keys of the pane map, pane lists are non-empty and free of duplicates, and the active session is none or a connected one. |
| Sessions.RunKeepsIds | src/stores/sessionStore.ts:64-118 | On every run, safe or not, no terminal is in two sessions or shown without having been issued. |
| Sessions.StepKeeps | src/stores/sessionStore.ts:58-140 | Each reducer and handler keeps that invariant exactly when the step is safe: panes go to connected sessions, and what is active afterwards is a connected session that has not just lost its last pane. |
| Sessions.PanesAreHistory | src/stores/sessionStore.ts:64-118 | After every run a session shows exactly the terminals opened for it that no later connection, close, disconnect or deletion retired. |
| Sessions.TelemetryFollowsSession | src/stores/sessionStore.ts:87-128 | One event, in a state within the invariant: telemetry is what was sent, goes when its session leaves the connected ones, and otherwise stays. |
| SessionTelemetry.TelemetryIsHistory | src/stores/sessionStore.ts:87-128 | After every run a session's telemetry is the last it was sent, unless that was nothing or the session has ended since. |
| SessionTelemetry.TelemetryOutlivesConnection | src/App.tsx:166-168 | Over every run, telemetry is held for a session that is not connected exactly if it came when the session was not, and since then nothing was sent and the session has neither ended nor been connected. |
| SessionTelemetry.LateTelemetryStays | src/App.tsx:166-168 | A run in which a late payload is held after the end of its session, and is then taken for the next connection's. |
| Sessions.StaleCloseIsIgnored | src/App.tsx:214-219 | The close event of a terminal that was replaced or closed changes nothing, however late it arrives. |
| Sessions.ReplacingRetires | src/stores/sessionStore.ts:64-73 | A new connection takes every terminal of the old one off the screen. |
| Sessions.CloseTakesItsPane | src/App.tsx:210-235 | A live close takes exactly its pane, and the session with its last one; other sessions are untouched; only if the session ended does the view fall back and is it marked lost. |
| Sessions.FallbackIsMostRecent | src/hooks/useDisconnectSession.ts:5-9 | The view falls back on the session connected last among the others. |
| SessionEffects.StepIsOwn | src/stores/sessionStore.ts:58-140 | Every event changes its own session (connection, terminals in order, telemetry, loss) as a small machine of one session says, and no other session. |
| SessionEffects.ConnectedOrder | src/stores/sessionStore.ts:63-118 | A session that connects anew goes last among the connected ones, one that ends leaves the others in their order, and nothing else moves them. |
| SessionEffects.ViewMoves | src/App.tsx:210-235 | What each event does to the session shown: the end of a session moves the view only if it was the one shown, then to the one connected last among the others. |
| SessionEffects.EndTakesOnlyIts | src/hooks/useDisconnectSession.ts:26-37 | An answered disconnect, or the deletion of a connected session, takes exactly that session with its terminals and telemetry; the others keep their order and all they have; the view moves, by one revision, only if it was shown. |
| SessionEffects.LostIsHistory | src/hooks/useDisconnectSession.ts:18-21 | After every run a session is lost exactly if something lost it and neither a disconnect, nor a deletion, nor a reconnect by hand has ended the loss since. |
| SessionRaces.DisconnectTakesWhatItSaw | src/hooks/useDisconnectSession.ts:16-37 | Over every run, a disconnect's answer takes only terminals that were shown when it was asked for exactly when no terminal opened for the session in between is still live. |
| SessionRaces.LateDisconnectDropsNewConnection | src/hooks/useDisconnectSession.ts:25-37 | A run in which it takes a new connection. |
| SessionRaces.SplitNeedsItsConnection | src/components/TerminalPane.tsx:835-868 | Adding the pane of an answered split keeps the invariant exactly when the session is still connected. |
| SessionRaces.SplitOpensOnLostSession | src/components/TerminalPane.tsx:837-869 | A run in which the connection drops while the split waits: the pane is added for, and focused in, a session that is not connected. |
| SessionRaces.ClosedSplitNeedsItsFocus | src/components/TerminalPane.tsx:986-1006 | Closing a split keeps it exactly when the session that is active afterwards is still connected and has not just lost its last pane. |
| SessionRaces.ClosedSplitShowsLostSession | src/components/TerminalPane.tsx:986-1006 | A run in which the session focused has dropped while the close waited. |
| SessionRaces.ClosedSplitKeepsEndedSession | src/components/TerminalPane.tsx:756-763 | A run in which the focus is left alone because of what was active before, and an ended session stays active. |
| SessionStore.Store.FocusPane | src/components/TerminalPane.tsx:756-763 | The owner becomes active unless it was when the handler started. |
| SessionStore.Store.AddConnectedSession | src/stores/sessionStore.ts:64-73 | The reducer on the store's fields. |
| SessionStore.Store.AddTerminalPane | src/stores/sessionStore.ts:74-86 | The reducer on the store's fields. |
| SessionStore.Store.RemoveTerminalPane | src/stores/sessionStore.ts:87-107 | The reducer on the store's fields; the last pane takes the session with it. |
| SessionStore.Store.RemoveConnectedSession | src/stores/sessionStore.ts:108-118 | The reducer on the store's fields. |
| SessionStore.Store.SetSessionTelemetry | src/stores/sessionStore.ts:119-128 | The reducer on the store's fields. |
| SessionStore.Store.MarkSessionLost | src/stores/sessionStore.ts:129-134 | The reducer on the store's fields. |
| SessionStore.Store.ClearSessionLost | src/stores/sessionStore.ts:135-140 | The reducer on the store's fields. |
| SessionStore.Store.OnTerminalClosed | src/App.tsx:210-235 | The sequence of store updates, with its reads of the store from before them, is the specified step. |
| SessionStore.Store.StartDisconnect | src/hooks/useDisconnectSession.ts:16-25 | The loss is cleared first; the backend is called only for a connected session. |
| SessionStore.Store.OnDisconnected | src/hooks/useDisconnectSession.ts:26-37 | What an answered disconnect does to the store as it is then; `SessionEffects.EndTakesOnlyIts` says what that is. |
| SessionStore.Store.OnProfileDeleted | src/components/SessionSidebar.tsx:350-360 | What an answered deletion does to the store. |
| TerminalInput.StepKeeps | src/components/TerminalPane.tsx:482-509 | Typing, answers, failures and closes keep the queue's invariant. |
| TerminalInput.RunKeeps | src/components/TerminalPane.tsx:482-509 | In every run, while the pane is writable, typed text is delivered, pending and queued text in order; one write is pending at most; a queue never waits without a writer; what was delivered is always a prefix of what was typed. |
| TerminalInput.ClosedSendsNothing | src/components/TerminalPane.tsx:721-728 | Once a pane is closed only the write then pending can still arrive, whatever is typed afterwards. |
| TerminalInput.ClosingDrops | src/components/TerminalPane.tsx:498-527 | A close or a failed write makes the pane unwritable and drops its queue; a snippet that finds it so leaves nothing behind. |
| TerminalInput.AnswerSendsTheQueue | src/components/TerminalPane.tsx:488-493 | An answered write sends the whole queue with the next one. |
| TerminalInput.TwoAnswersDeliver | src/components/TerminalPane.tsx:488-506 | Everything typed before one answer has been delivered by the next one. |
| TerminalInput.IdleIsDelivered | src/components/TerminalPane.tsx:482-509 | A writable pane with no writer has delivered everything. |
| TerminalEntry.TermEntry.Loop | src/components/TerminalPane.tsx:488-507 | One turn of the loop; the check in `finally` never finds text left over. |
| TerminalEntry.TermEntry.FlushInput | src/components/TerminalPane.tsx:482-509 | A flush starts a writer unless there is one or the pane is closed. |
| TerminalEntry.TermEntry.OnData | src/components/TerminalPane.tsx:595-598 | Typed text is queued, and flushed. |
| TerminalEntry.TermEntry.SendSnippet | src/components/TerminalPane.tsx:513-527 | A snippet joins the same queue, on writable panes only. |
| TerminalEntry.TermEntry.OnWritten | src/components/TerminalPane.tsx:493-507 | The answer to a write. |
| TerminalEntry.TermEntry.OnWriteFailed | src/components/TerminalPane.tsx:494-507 | Its failure, after any part of it got through. |
| TerminalEntry.TermEntry.OnTerminalClosed | src/components/TerminalPane.tsx:721-728 | The pane is no longer writable and its queue is dropped. |
| Concurrency.WorkersFitTheLimit | src/utils/concurrency.ts:18 | For any number, NaN and infinities included, the pool is the largest the limit allows, at least one and no more than the items. |
| Concurrency.RunKeeps | src/utils/concurrency.ts:18-27 | In every schedule items start in order and once, each result is the answer for its own item, and every settled promise takes one from a measure that starts at the number of items. |
| Concurrency.BoundedAndBusy | src/utils/concurrency.ts:1-7 | At most the allowed number of workers run at once and, while items remain and none failed, exactly that many. |
| Concurrency.FulfilledWithAllAnswers | src/utils/concurrency.ts:26-28 | The result is fulfilled exactly when as many workers as there are items have answered and none failed, and then holds every answer in its item's place. |
| Concurrency.FailuresDoNotStopOthers | src/utils/concurrency.ts:20-26 | When nothing is in flight, every item was started unless every runner failed. |
| ConcurrencyPool.Pool.constructor | src/utils/concurrency.ts:13-26 | Creating the runners takes the first items, in order. |
| ConcurrencyPool.Pool.Turn | src/utils/concurrency.ts:21-24 | A runner takes the next item or ends. |
| ConcurrencyPool.Pool.OnResolved | src/utils/concurrency.ts:24 | An answer is stored at its own index and the runner goes on. |
| ConcurrencyPool.Pool.OnRejected | src/utils/concurrency.ts:24-26 | A failure ends its runner only. |
| JumpHosts.ReachesForm | src/components/SessionSidebar.tsx:95-106 | The walk ends on every graph, cyclic ones included, and answers whether the edited profile is on the start's jump chain. |
| JumpHosts.JumpHostCandidates | src/components/SessionSidebar.tsx:107-110 | The candidates are exactly the other SSH profiles whose chain does not reach the edited one, in order. |
| JumpHosts.CandidatesInOrder | src/components/SessionSidebar.tsx:107-110 | The candidates stand for the ascending list of exactly those places: in the order of the profiles, none twice. |
| JumpHosts.SavingClosesACycle | src/components/SessionSidebar.tsx:90-92 | On any graph, saving a jump host closes a cycle through the profile exactly when the profile is on that host's chain. |
| JumpHosts.SavingKeepsAcyclic | src/components/SessionSidebar.tsx:90-92 | On an acyclic graph, saving keeps it acyclic exactly when the profile is not on that chain. |
| JumpHosts.OfferedKeepsAcyclic | src/components/SessionSidebar.tsx:93-111 | An SSH profile is offered exactly when saving it keeps the profiles free of circular chains. |
| JumpHosts.LeftOutClosesACycle | src/components/SessionSidebar.tsx:93-111 | On any profiles, an SSH profile is left out exactly when saving it would close a cycle through the edited one. |
| JumpHosts.NewProfileIsSafe | src/components/SessionSidebar.tsx:99-101 | A new profile closes no cycle, and is offered every SSH profile. |
| JumpHosts.EndsOrCycles | src/components/SessionSidebar.tsx:95-106 | On any graph a chain ends exactly when it does not run into a cycle. |
| JumpHosts.SavedChainEnds | src/components/SessionSidebar.tsx:90-92 | Saved with a jump host, a profile's chain ends exactly when the profile is not on that host's chain and that chain ends. |
| JumpHosts.ResolvableWhenOffered | src/components/SessionSidebar.tsx:90-111 | On any profiles, saved with an SSH profile the edited one can be resolved exactly when that profile is offered and its chain does not run into a cycle. |
| JumpHosts.AllOfferedResolve | src/components/SessionSidebar.tsx:90-111 | All that is offered can be resolved exactly when no SSH profile's chain that avoids the edited profile runs into a cycle. |
| JumpHosts.EnsureNoJumpLoop | src-tauri/src/ssh/session.rs:675-695 | The backend's loop refuses exactly the saves after which the chain does not end. |
| JumpHosts.CircularProfileIsOffered | src-tauri/src/ssh/session.rs:697-709 | Of two profiles that jump through each other, each is offered to a profile outside, which then cannot be resolved. |
| RemoteSort.StrictTotalOrder | src/components/RemoteFilePanel.tsx:512-567 | For every key and direction the comparator is a strict total order on entries in different places, given only that text comparison is a total preorder. |
| RemoteSort.OnlyOneArrangement | src/components/RemoteFilePanel.tsx:512-534 | The sorted order is the only permutation of the entries in which each comes before the next. |
| RemoteSort.ListingIsArranged | src/components/RemoteFilePanel.tsx:512-567 | The listing shows every entry once, each before the next ones in the order and direction chosen, and no other arrangement does. |
| RemoteSort.OrderMeans | src/components/RemoteFilePanel.tsx:512-560 | Directories first; then entries with the key in the chosen direction; then those without it, in both directions; ties by name, then by place. |
| RemoteSort.FlippingTurnsRound | src/components/RemoteFilePanel.tsx:512-560 | Changing direction turns round exactly the pairs inside a group whose keys are there and differ. |
| RemoteSort.SortingTwice | src/components/RemoteFilePanel.tsx:512-534 | Sorting a sorted listing changes nothing. |
| RemoteSort.ListingShape | src/components/RemoteFilePanel.tsx:512-534 | The listing is a permutation with directories in front and, in each group, entries without the key behind and the others never against the chosen direction. |
| HostKey.SplitFields | src/utils/hostKeyPrompt.ts:75-88 | The loop splits at the first pipes; too few give one empty field. |
| HostKey.SplitJoins | src/utils/hostKeyPrompt.ts:74-88 | The fields joined by pipes are the payload, and all but the last are free of pipes. |
| HostKey.JoinSplits | src/utils/hostKeyPrompt.ts:74-88 | Fields free of pipes, joined, are split back into themselves. |
| HostKey.ParsesChanged | src/utils/hostKeyPrompt.ts:21-72 | For any text before without the sentinel and any host, colons and pipes included, parsing undoes the documented changed-key format exactly when the host is not empty and the first field does not begin with white space. |
| HostKey.ParsesUnknown | src/utils/hostKeyPrompt.ts:21-72 | The same for an unknown key, where moreover the text must not hold the changed-key sentinel; all three conditions are necessary and sufficient. |
| HostKey.LeadingSpaceIsLost | src/utils/hostKeyPrompt.ts:36-47 | No text is parsed as a challenge whose first field begins with white space. |
| HostKey.SentinelInHost | src/utils/hostKeyPrompt.ts:30-53 | A host that holds the changed-key sentinel puts it in the text. |
| HostKey.ParsedIsWritten | src/utils/hostKeyPrompt.ts:29-72 | Whatever is parsed was written in the documented format: non-empty fields without pipes, a non-empty host, and a positive port after the last colon. |
| HostKeyPrompt.WithHostKeyPrompt | src/utils/hostKeyPrompt.ts:108-140 | The calls made and the outcome, for every way the calls can go: each round tries, asks and stores, and the run ends at the first success, other error, refusal, failed call or at the fourth try. |
| HostKeyPrompt.AtMostFourTries | src/utils/hostKeyPrompt.ts:108-120 | The action runs at most four times and the user is asked at most three. |
| HostKeyPrompt.TriesFollowTrust | src/utils/hostKeyPrompt.ts:115-138 | Each further try follows the storing of the key the try before it failed for, agreed to by the user. |
| HostKeyPrompt.StoredWithConsent | src/utils/hostKeyPrompt.ts:108-138 | In every run a key is stored only if the user agreed, in the same round, to that very key, which the action had just failed for. |
| PermanentErrors.ChallengesArePermanent | src/hooks/useAutoReconnect.ts:11-25 | Every error that would raise a prompt is one a background reconnect gives up on. |
| PermanentErrors.PermanentIs | src/hooks/useAutoReconnect.ts:11-25 | An error is one to give up on exactly if one of the six phrases stands in it, in whatever case. |
| ShellQuote.QuotedIsOneWord | src/utils/shellQuote.ts:10-12 | For every string a reader of POSIX quoting reads the quoted form to its end as one word that is the string. |
| ShellQuote.QuotedInACommand | src/utils/shellQuote.ts:10-12 | Between blanks in any longer command that the reader reads it is exactly one of its words. |
| ShellQuote.AttachIsRead | src/components/TerminalPane.tsx:921-929 | For every session id the command typed to attach to it is the five words `env`, `TMUX=`, `tmux`, `attach-session`, `-t` and the id. |
| ShellQuote.CreateIsRead | src/components/TerminalPane.tsx:946-951 | For every name the command typed to create a session is six such words and the name or, without a name, four. |
| ShellQuote.ArgumentsRoundTrip | src/utils/shellQuote.ts:1-12 | Any list of arguments, quoted one by one, is read back as that list. |
| Segments.Plot | src/components/HistoryChart.tsx:95-124 | The loop draws the specified lines, and the value shown is the last finite reading. |
| Segments.StretchesAreLines | src/components/HistoryChart.tsx:98-117 | The lines are stretches of readings, in order and apart, joined inside, and every reading is in one. |
| Segments.SameLineWhenLinked | src/components/HistoryChart.tsx:102-116 | Neighbouring points share a line exactly when both are readings and not too far apart. |
| Segments.DrawnAreStretches | src/components/HistoryChart.tsx:98-122 | Each line drawn holds exactly the readings of its stretch, in order. |
| Segments.LinesConserve | src/components/HistoryChart.tsx:98-122 | The lines put together are the finite readings of the window, in order. |
| Segments.ReadingsAre | src/components/HistoryChart.tsx:107-115 | The readings are exactly the finite values of the window at their times; missing ones, NaN and the infinities are not drawn. |
| Segments.LatestIsLast | src/components/HistoryChart.tsx:123 | The end of the last line is the last finite reading. |
| Segments.WindowIsAnEnd | src/components/HistoryChart.tsx:80-83 | The window of a history in time order is an end piece of it, so neighbours in the window were neighbours in the history. |
| Segments.WindowIsEmptyWhenStale | src/components/HistoryChart.tsx:80-82 | A chart with readings has none to show exactly when its newest is older, by the clock, than the range. |
| Segments.WindowShows | src/components/HistoryChart.tsx:80-82 | The window is the end piece of the history with exactly the readings no older than the range, by the clock and by the newest reading. |
| Segments.HistorySegments | src/components/AgentUsagePopover.tsx:631-663 | The quota chart's loop draws the specified lines, cut at missing readings only; put together they are the available readings in order. |
| Segments.FindIsFirst | src/components/AgentUsagePopover.tsx:643-651 | The limit read is the first that matches. |
| Segments.QuotaReadingIs | src/components/AgentUsagePopover.tsx:642-660 | A quota point has a value exactly if the quota was available and a limit for the window and group has a percentage, and then the first such. |

## Left out

- AlertEngine.AlertEngine.Apply: event ids, titles and bodies are not modelled, nor the lock failures after which the code returns early; the sort of `active_alerts` and `deliver` are left out.
- TelemetryServer.RecordMovesOn: buckets hold lists of readings rather than sums, so averages, GPU names and indices are not modelled; the backend's deques are values here, not updated in place; the clock is taken not to go back between readings.
- TelemetryPolls.PollingRefinesFetching: replies are taken to arrive in the order the backend answered them; `TelemetryRaces` shows what happens otherwise.
- TelemetryWindow.HeldIsServersWindow: is about runs in which no history is removed; `TelemetryPolls.AgreementAcrossRemoval` is about the others, up to the window's edge.
- AlertOrder.EventsAscend: takes the GPUs and the mounts of an input to have distinct keys.
- AlertRuns.NotificationsAreSpaced: takes the cooldowns of the run to be positive. They are: settings are sanitised wherever they come from (`src-tauri/src/alerts.rs:639-656`). `AlertKeyed.NotificationsSpaced` also covers a clock that never goes back.
- AlertReplica.ReplicaAgrees: takes the events to reach the window in order; `AlertDelivery.DeliveredAgrees` is about the others.
- Reconnect.RunKeeps: a result handler and the `finally` after it follow each other with no other event between, as consecutive microtasks do; the id of a connected session is taken to be the one asked for; unmounting the hook is left out.
- Reconnect.AtMostTenFailures: the count of a cancelled connect that fails later carries over into the next episode and can make that one shorter.
- ReconnectBackend.HandBackTakesItsOwn: what stopped terminals tell the window, and the window's own list of panes, are not part of this run model; they are in `Sessions`.
- Sessions.RunKeeps: takes the backend never to use a terminal id again. Messages, profiles and settings in the store are left out, and so is what a stale list of profiles shows.
- TerminalInput.RunKeeps: the layout of panes, bracketed paste and the command typed ahead into a new split, which does not use the queue, are left out.
- Concurrency.RunKeeps: a worker that throws before it returns a promise counts as one whose promise is rejected.
- JumpHosts.EnsureNoJumpLoop: takes profile ids to be unique, as saving keeps them; the limit on the depth of a chain is left out.
- RemoteSort.OnlyOneArrangement: the language's own sorting algorithm is not modelled; an insertion sort stands for it, and the lemma shows any correct one gives the same. Sizes and times are unbounded integers.
- HostKey.ParsesChanged: the conversion of text to a number is a parameter that reads the port's numeral rightly; the sign and exponent forms it also accepts are left to it.
- HostKeyPrompt.WithHostKeyPrompt: the parser is a parameter, and the wording of the prompt is left out.
- PermanentErrors.PermanentIs: is about errors whose characters have a single lower-case character each; only U+0130 has not.
- PermanentErrors.ChallengesArePermanent: lower-casing goes character by character; the final form of the Greek sigma, which depends on its neighbours, is not modelled.
- ShellQuote.QuotedIsOneWord: the reader refuses expansions, double quotes and patterns outside single quotes, and comments and home directories at the start of a word, rather than giving them a meaning; it reads the first word of a command like any other, though the shell may take it for an assignment or a reserved word; history expansion of interactive shells and what a terminal makes of control characters typed into it are not modelled.
- Segments.Plot: scales, axes and ticks are left out.
- SSH and SFTP transport, tunnels, the vault, file dialogs, updates, container and database views, and all rendering.
- Formatting helpers: true but shallow.
