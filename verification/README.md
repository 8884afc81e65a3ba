# Verified models of the Codex app replica's state machines

Dafny models of the parts of the repository whose behaviour is decided by arithmetic, clocks and
interleavings, with proofs of what they guarantee. `dafny verify dfyconfig.toml` checks everything.

- **Avatar overlay** (`OverlayLayout`, `OverlayGuarantees`, `ScreenCoordinates`). A mascot is anchored on a
  display, a tray takes one of four places around it, and a fixed-size window is laid over both. Coordinates
  are reals and rounding is explicit, so whole pixels are a hypothesis of a theorem and never of the model.
- **Flings** (`Fling`, `MomentumProtocol`). A released drag keeps moving the anchor. `Fling` is one loop on the
  overlay's mutable state; `MomentumProtocol` lets any number of such loops interleave at their critical sections.
- **Automations** (`AutomationSchedule`, `Scheduler`, `RendererStates`). Recurrence rules, next-run arithmetic in
  64 bits, the records' life under edits and ticks, and the eligibility reports that can block a heartbeat.
- **App-state snapshots** (`DeltaTelemetry`, `SnapshotRequests`). A pruned sliding window, and a request table
  with a time to live shared by one asking task and any number of answering windows.
- **Threads** (`ThreadLoader`, `ThreadRoutes`). Loads whose responses arrive in any order, and the printer and
  parser of thread routes with their percent coding.
- **Smaller cores**. The linter's argument wrapper (`WrapperArgs`), the browser-use origin lists
  (`BrowserOrigins`), the debug view's bounded log (`DebugLog`) and the runtime's version spellings
  (`RuntimeVersion`). `Text` and `Wrappers` are shared helpers.

Objects the source updates in place are classes whose methods are proved against functions of their old state;
whole runs and interleavings are stated about those functions. A ghost field such as `RequestLog.full` keeps the
history the source throws away, and the invariant ties the two.

Where the code is subtler than its intent, the exact condition is proved:

- The bias towards the previous tray placement can hide part of a tray that could be shown whole. Among the trays a
  layout can have, it never does exactly for those at least 64 pixels wide and either at least 64 high or no wider
  than the mascot (`HysteresisHarmlessExactly`). The preferred side of the mascot never has less room than the
  other, so an overflow only has to outweigh the 64 points by which the bias of 96 exceeds the penalty of 32.
- Mascot and tray are drawn inside the window for every anchor and tray exactly if mascot, paddings and gap fit in
  it (`LayoutContainedExactly`); without a tray the gap is not needed (`MascotVisibleExactly`). A mascot one pixel too
  tall for its bottom padding still stands on a display that is not at the top, because the middle of the empty
  range is rounded upwards.
- A layout is a fixed point only if the right and bottom limits of the mascot survive rounding, because
  coordinates are rounded before they are clamped (`LayoutIdempotentExactly`).
- A cancelled fling never writes the anchor again exactly if it was not past its generation check
  (`SupersededSilentExactly`); otherwise it can write once more, and never twice.
- A manual run breaks the spacing of heartbeats exactly when the pending next run is nearer than one interval
  (`ManualRunKeepsSpacingExactly`).
- A snapshot reply is judged by its age when it prunes the table, in an earlier critical section than its
  acceptance. If replies are accepted within `d` of that, requests are accepted before an age of exactly the time
  to live plus `d` (`AcceptedAgeExactly`), so the time to live itself is kept in all runs exactly for `d` zero
  (`TimeToLiveKeptExactly`).
- Wrapping arguments twice differs from wrapping them once exactly when the default manifest path is `--`
  (`NormalisationIdempotentExactly`).
- Normalising a release version gives the normal form back exactly if, behind one prefix, the version is unpadded and
  unprefixed and no short prerelease name completes a long one (`ReleaseRoundTripExactly`). `vv1`, `1-alph-alpha1` and
  `1--rc1` do not come back.
- A route with one of `! ' ( ) *` in its id is built but not parsed (`RouteRoundTripExactly`).

## Model

| member | source | states |
|---|---|---|
| ScreenCoordinates.ClampCoordinate | codex-app-replica/src-tauri/src/avatar_overlay.rs:1270-1276 | the result lies in a non-empty range, is whole when the bounds are, and leaves a whole value in range alone |
| ScreenCoordinates.ClampIdempotentExactly | codex-app-replica/src-tauri/src/avatar_overlay.rs:1270-1276 | clamping twice is clamping once, for all values, if and only if the range is empty or its upper bound does not round down |
| OverlayLayout.ChoosePlacement | codex-app-replica/src-tauri/src/avatar_overlay.rs:1110-1140 | no placement scores less than the chosen one, and none of the same score is tried earlier |
| OverlayGuarantees.DefaultGeometry | codex-app-replica/src-tauri/src/avatar_overlay.rs:1416-1510 | the layouts the repository's own tests expect, with the default tray or none, follow from the model, and until the renderer has measured the default tray is assumed |
| OverlayGuarantees.LayoutContainedExactly | codex-app-replica/src-tauri/src/avatar_overlay.rs:997-1058 | for a mascot and a display, every anchor, previous placement and tray gives a window on the display with mascot and tray drawn inside it, if and only if mascot, paddings and gap have room |
| OverlayGuarantees.WindowEndsWithContent | codex-app-replica/src-tauri/src/avatar_overlay.rs:1210-1259 | the window's far edges are those of the union of padded mascot and tray, clamped to the display |
| OverlayGuarantees.WindowCoversContent | codex-app-replica/src-tauri/src/avatar_overlay.rs:1210-1225 | content no larger than the viewport lies inside the window |
| OverlayGuarantees.TrayBeside | codex-app-replica/src-tauri/src/avatar_overlay.rs:1142-1208 | the clamped tray stays on the display and within gap and sizes of the mascot, in all four placements |
| OverlayGuarantees.RelativeInViewport | codex-app-replica/src-tauri/src/avatar_overlay.rs:1261-1268 | a rectangle is inside the window if and only if its relative pixels are inside the viewport |
| OverlayGuarantees.MascotCutWithoutRoom | codex-app-replica/src-tauri/src/avatar_overlay.rs:997-1058 | without room for mascot and padding in the viewport, the mascot at the display's origin is cut off |
| OverlayGuarantees.MascotVisibleExactly | codex-app-replica/src-tauri/src/avatar_overlay.rs:997-1058 | without a tray the mascot is drawn inside the window at every anchor if and only if it stands on the display and has room without the gap |
| OverlayGuarantees.AnchorAligned | codex-app-replica/src-tauri/src/avatar_overlay.rs:1176-1191 | the clamped anchor is whole, lies across the display, and lies on it if and only if the mascot stands on the display, also when it is taller than the display |
| OverlayGuarantees.EmptyTrayCut | codex-app-replica/src-tauri/src/avatar_overlay.rs:997-1058 | between the two conditions an empty tray above a mascot at the bottom is outside the window |
| OverlayGuarantees.OverflowScore | codex-app-replica/src-tauri/src/avatar_overlay.rs:1227-1234 | a tray on the display costs nothing; any other costs at least one pixel plus the shorter of the sides that overflow |
| OverlayGuarantees.PreferredHasRoom | codex-app-replica/src-tauri/src/avatar_overlay.rs:1098-1108 | the preferred placement is below exactly if there is more room below than above, and starts at the mascot's left edge exactly if there is more room to its right |
| OverlayGuarantees.PreferredFitsIfAnyDoes | codex-app-replica/src-tauri/src/avatar_overlay.rs:1098-1108 | if any placement fits on the display then the preferred one does |
| OverlayGuarantees.NoTrayPreferred | codex-app-replica/src-tauri/src/avatar_overlay.rs:1023-1033 | without a tray the placement is the preferred one and none is drawn |
| OverlayGuarantees.OverflowExactly | codex-app-replica/src-tauri/src/avatar_overlay.rs:1227-1234 | the score of a tray that touches the display counts each row and column outside of it with its pixels and one more |
| OverlayGuarantees.FittingPlaceKept | codex-app-replica/src-tauri/src/avatar_overlay.rs:1110-1140 | if the tray fits where it was, it stays there |
| OverlayGuarantees.LostPlaceReplaced | codex-app-replica/src-tauri/src/avatar_overlay.rs:1110-1140 | if it does not, and some placement of a harmless tray fits, it goes to the preferred one, whatever the order |
| OverlayGuarantees.MovesExactlyForGain | codex-app-replica/src-tauri/src/avatar_overlay.rs:1110-1140 | a tray stays exactly unless a move saves 64 of overflow to the preferred placement, 128 away from it or 96 otherwise, ties going by order; and it passes over the preferred placement only to save 32 more |
| OverlayGuarantees.ChosenFitsIffAnyDoes | codex-app-replica/src-tauri/src/avatar_overlay.rs:1110-1165 | for a harmless tray, at least 64 wide and either 64 high or no wider than the mascot, the chosen placement fits if and only if some placement does, whatever the previous one was |
| OverlayGuarantees.NarrowTrayCut | codex-app-replica/src-tauri/src/avatar_overlay.rs:997-1140 | for every mascot and every narrower tray its layouts can have, there is a layout whose placement is cut although one fits |
| OverlayGuarantees.FlatTrayCut | codex-app-replica/src-tauri/src/avatar_overlay.rs:997-1140 | likewise for every flatter tray wider than the mascot |
| OverlayGuarantees.HysteresisHarmlessExactly | codex-app-replica/src-tauri/src/avatar_overlay.rs:997-1140 | over all layouts with a given mascot and a given tray after clamping, a tray that could be shown whole is, if and only if that tray is harmless or no layout can have it |
| OverlayGuarantees.HeldTray | codex-app-replica/src-tauri/src/avatar_overlay.rs:1083-1096 | how large the clamped tray of a layout can be |
| OverlayGuarantees.TrayKeepsGap | codex-app-replica/src-tauri/src/avatar_overlay.rs:997-1058 | if some placement of a harmless tray fits, the tray is drawn exactly four pixels above or below the drawn mascot and flush with its left or right edge, as its placement says |
| OverlayGuarantees.NearestNatural | codex-app-replica/src-tauri/src/avatar_overlay.rs:1261-1268 | a length is sent as the nearest number of pixels that is not negative |
| OverlayGuarantees.ChoiceStable | codex-app-replica/src-tauri/src/avatar_overlay.rs:1110-1140 | choosing again with the bias moved to the first choice chooses the same, ties included |
| OverlayGuarantees.LayoutIdempotent | codex-app-replica/src-tauri/src/avatar_overlay.rs:997-1058 | once the anchor is stable the whole second layout equals the first |
| OverlayGuarantees.LayoutIdempotentExactly | codex-app-replica/src-tauri/src/avatar_overlay.rs:997-1058 | laying out twice is laying out once, for all anchors, if and only if both limits of the mascot survive rounding |
| OverlayGuarantees.WholeSizesAreStable | codex-app-replica/src-tauri/src/avatar_overlay.rs:1176-1191 | whole mascot and display sizes meet that condition |
| Fling.Snapshot.constructor | codex-app-replica/src-tauri/src/avatar_overlay.rs:244-268 | the initial overlay |
| Fling.Snapshot.ApplyLayout | codex-app-replica/src-tauri/src/avatar_overlay.rs:997-1058 | updates anchor, placement and layout to those computed from the old state, and nothing else |
| Fling.Snapshot.MomentumTick | codex-app-replica/src-tauri/src/avatar_overlay.rs:443-503 | one turn of the loop refines the tick function, through lost monitors, edges, friction and expiry, and shows the layout of the candidate if a monitor was found |
| Fling.Snapshot.DragRelease | codex-app-replica/src-tauri/src/avatar_overlay.rs:410-507 | an undisturbed fling is the iterated tick, has stopped after at most 57 turns and shows the layout of the last turn that found a monitor |
| Fling.FlingEnds | codex-app-replica/src-tauri/src/avatar_overlay.rs:435-504 | every fling is over after 57 ticks, whatever the monitors do meanwhile |
| Fling.TickGoesOn | codex-app-replica/src-tauri/src/avatar_overlay.rs:443-503 | a tick goes on exactly if a monitor was found, less than 900 ms have passed and 65 px/s of speed are left |
| Fling.FlingUnderWay | codex-app-replica/src-tauri/src/avatar_overlay.rs:435-504 | a fling that meets no edge is under way after n ticks exactly if n is zero or both 16n is below 900 and its speed times 0.88 to the n-th is at least 65 |
| Fling.FlingStopsAt | codex-app-replica/src-tauri/src/avatar_overlay.rs:435-504 | it stops after the first tick that leaves less than that speed, or after the 57th |
| Fling.FarFromEdges | codex-app-replica/src-tauri/src/avatar_overlay.rs:435-504 | a start 2/15 of the speed and 29 pixels from the edges meets none |
| Fling.StepBound | codex-app-replica/src-tauri/src/avatar_overlay.rs:455-503 | a tick's step plus 2/15 of the remaining speed is at most 2/15 of the speed plus half a pixel |
| Fling.TravelBound | codex-app-replica/src-tauri/src/avatar_overlay.rs:435-504 | after n ticks each axis has moved at most 2/15 of its first speed plus n/2 pixels, and the anchor is still in range |
| Fling.ClampedAxisStops | codex-app-replica/src-tauri/src/avatar_overlay.rs:435-504 | an axis that was clamped has no speed and never moves again in that fling |
| MomentumProtocol.RunOrdered | codex-app-replica/src-tauri/src/avatar_overlay.rs:428-505 | over every interleaving generations never decrease and later tasks have later targets |
| MomentumProtocol.CurrentTaskUnique | codex-app-replica/src-tauri/src/avatar_overlay.rs:428-505 | in every reachable state only the last spawned task can match the current generation |
| MomentumProtocol.SupersededWritesAtMostOnce | codex-app-replica/src-tauri/src/avatar_overlay.rs:444-487 | a superseded task writes at most once more, only if past its check, and takes at most three more steps |
| MomentumProtocol.SupersededSilentExactly | codex-app-replica/src-tauri/src/avatar_overlay.rs:444-487 | a superseded task writes in no continuation if and only if it is not between its check and its write |
| MomentumProtocol.CancelledTaskMayStillWrite | codex-app-replica/src-tauri/src/avatar_overlay.rs:444-487 | a superseded task past its check can overwrite the anchor of a later drag |
| MomentumProtocol.CancelledPastCheckReachable | codex-app-replica/src-tauri/src/avatar_overlay.rs:444-487 | cancelling right after the check leads from the start to such a task |
| MomentumProtocol.EveryFlingBounded | codex-app-replica/src-tauri/src/avatar_overlay.rs:435-504 | under any interference no fling writes more than 57 times |
| MomentumProtocol.UninterruptedTick | codex-app-replica/src-tauri/src/avatar_overlay.rs:443-503 | the three critical sections in a row are one tick of the sequential fling |
| MomentumProtocol.UninterruptedFling | codex-app-replica/src-tauri/src/avatar_overlay.rs:425-504 | a release that nothing interferes with is the sequential fling, turn by turn, from its speed and no elapsed time |
| AutomationSchedule.ParseRruleIntervalMs | codex-app-replica/src-tauri/src/automations.rs:912-942 | the fold over the rule's parts finds the meaning of the rule: all parts acceptable, last FREQ and INTERVAL, product in 64 bits |
| AutomationSchedule.IntervalOf | codex-app-replica/src-tauri/src/automations.rs:912-942 | an interval is at least one second |
| AutomationSchedule.OtherKeysIgnored | codex-app-replica/src-tauri/src/automations.rs:919-930 | any part with another key can be left out anywhere in the rule |
| AutomationSchedule.CanonicalRule | codex-app-replica/src-tauri/src/automations.rs:912-942 | a rule of a frequency in any case and a count is that many seconds, minutes, hours, days or weeks in milliseconds, or nothing if that is zero or exceeds 64 bits or the name is another; without a count it is one |
| AutomationSchedule.LastSettingsCount | codex-app-replica/src-tauri/src/automations.rs:916-931 | after any earlier settings, the last frequency and the last count decide in either order, with keys in any case, padding and a plus sign |
| AutomationSchedule.SpoiledRule | codex-app-replica/src-tauri/src/automations.rs:916-928 | a part without an equals sign, or a count that is no positive number, spoils the rule wherever it stands |
| AutomationSchedule.NextRunExact | codex-app-replica/src-tauri/src/automations.rs:896-910 | the next run is the least occurrence after now, and missing exactly when that occurrence exceeds 64 bits |
| AutomationSchedule.UpcomingUnique | codex-app-replica/src-tauri/src/automations.rs:896-910 | there is only one such occurrence |
| AutomationSchedule.NoNextRun | codex-app-replica/src-tauri/src/automations.rs:896-902 | an automation that is not active or has no readable rule has no next run |
| RendererStates.RendererStates.ThreadStateChanged | codex-app-replica/src-tauri/src/automations.rs:229-254 | records the latest report of a thread; blank thread ids change nothing |
| RendererStates.RendererStates.Block | codex-app-replica/src-tauri/src/automations.rs:445-474 | the reason given, the pruning, and that a start is allowed exactly when the thread's latest report was eligible and at most 120 s old |
| RendererStates.SameDecision | codex-app-replica/src-tauri/src/automations.rs:445-474 | a pruned and a full map decide alike, and still do after another pruning |
| RendererStates.ReasonGiven | codex-app-replica/src-tauri/src/automations.rs:445-474 | the reason given, told from the latest report alone, up to whether a stale one was still known |
| RendererStates.TwoMinutes | codex-app-replica/src-tauri/src/automations.rs:456-462 | an eligible report counts for exactly 120 s |
| RendererStates.FieldNormalised | codex-app-replica/src-tauri/src/automations.rs:952-958 | padding is removed from a field and a blank one is none |
| RendererStates.PruningInvisible | codex-app-replica/src-tauri/src/automations.rs:229-474 | over every run of reports and questions with a non-decreasing clock, pruning changes no answer |
| Scheduler.AutomationStore.PersistAutomation | codex-app-replica/src-tauri/src/automations.rs:813-857 | the written record: dates filled in, next run preserved or recomputed |
| Scheduler.AutomationStore.SaveAutomation | codex-app-replica/src-tauri/src/automations.rs:500-507 | a save persists against the stored record of that id |
| Scheduler.AutomationStore.SetAutomationStatus | codex-app-replica/src-tauri/src/automations.rs:287-300 | changes one record's status and dates, or nothing when there is no such record |
| Scheduler.AutomationStore.ProcessDueHeartbeats | codex-app-replica/src-tauri/src/automations.rs:394-443 | a tick treats every record as if alone, through the blocked, failed and successful branches, and starts exactly the due and allowed ones whose start succeeds, each once and in order; it is the tick of the whole-run model |
| Scheduler.TickClearsDue | codex-app-replica/src-tauri/src/automations.rs:399-442 | after a tick nothing is due; what was due runs later than the tick or never; what was not is untouched |
| Scheduler.BlockedOutcome | codex-app-replica/src-tauri/src/automations.rs:421-430 | a due heartbeat that is not allowed keeps all but its next run, which is the sooner of a minute and an interval from now that fits, and none exactly if neither does |
| Scheduler.FailedOutcome | codex-app-replica/src-tauri/src/automations.rs:432-439 | a due and allowed heartbeat whose start fails keeps all but its next run, which is in exactly a minute, when it is due again, or none exactly if that does not fit |
| Scheduler.FiredOutcome | codex-app-replica/src-tauri/src/automations.rs:604-608 | a started heartbeat runs next exactly one interval after its start, or never if that does not fit, and is otherwise only dated |
| Scheduler.OthersUntouched | codex-app-replica/src-tauri/src/automations.rs:399-419 | a tick leaves every other record alone |
| Scheduler.BlockedRetrySoonest | codex-app-replica/src-tauri/src/automations.rs:476-487 | a blocked heartbeat is retried at the sooner of a minute and an interval from now, and not at all exactly when neither fits |
| Scheduler.PendingRunKept | codex-app-replica/src-tauri/src/automations.rs:842-857 | an edit that leaves an active automation and its rule alone leaves a pending run alone |
| Scheduler.EditReschedules | codex-app-replica/src-tauri/src/automations.rs:830-836 | any other edit schedules the first occurrence after now counted from the last run, or none |
| Scheduler.EditKeepsDates | codex-app-replica/src-tauri/src/automations.rs:813-830 | dates left out of an edit stay, dates given are taken, and nothing else changes |
| Scheduler.EditKeepsSpacing | codex-app-replica/src-tauri/src/automations.rs:813-857 | an edit that does not change the last run leaves the next run an interval after it |
| Scheduler.TickKeepsSpacing | codex-app-replica/src-tauri/src/automations.rs:394-498 | so does a tick, in all its branches |
| Scheduler.StepKeepsInvariant | codex-app-replica/src-tauri/src/automations.rs:287-507 | every operation keeps the store spaced and the log of firings consistent with it |
| Scheduler.FiringsStaySpaced | codex-app-replica/src-tauri/src/automations.rs:394-857 | over every run of saves, status changes, deletions, reports and ticks all records stay spaced |
| Scheduler.ScheduledFiringsSpaced | codex-app-replica/src-tauri/src/automations.rs:394-857 | from an empty store, any two scheduled firings of one automation, not deleted in between, are at least its current interval apart, and that is a real interval of a second or more |
| Scheduler.ManualRunKeepsSpacingExactly | codex-app-replica/src-tauri/src/automations.rs:604-608 | a manual run keeps the spacing if and only if the pending next run is not nearer than an interval |
| DeltaTelemetry.RawDeltaTelemetry.Record | codex-app-replica/src-tauri/src/app_state_snapshot.rs:284-292 | the queue becomes the recent part of the history with the new sample |
| DeltaTelemetry.RawDeltaTelemetry.TakeSnapshot | codex-app-replica/src-tauri/src/app_state_snapshot.rs:294-302 | reports what filtering the full history reports, and totals are forgotten plus live samples |
| DeltaTelemetry.RawDeltaTelemetry.Prune | codex-app-replica/src-tauri/src/app_state_snapshot.rs:304-313 | leaves exactly the samples aged at most 30 s |
| DeltaTelemetry.RecentIsSuffix | codex-app-replica/src-tauri/src/app_state_snapshot.rs:304-313 | in a history in order, filtering by age is dropping from the front |
| DeltaTelemetry.SampleReported | codex-app-replica/src-tauri/src/app_state_snapshot.rs:283-313 | a sample is in the totals for good and among the recent ones for exactly 30 s |
| DeltaTelemetry.PruningInvisible | codex-app-replica/src-tauri/src/app_state_snapshot.rs:283-314 | over every run of calls all reports equal those of a telemetry that forgets nothing |
| SnapshotRequests.RequestIdsDiffer | codex-app-replica/src-tauri/src/app_state_snapshot.rs:198-201 | different request numbers have different ids |
| SnapshotRequests.SnapshotState.TakeRequest | codex-app-replica/src-tauri/src/app_state_snapshot.rs:137-150 | a reply is accepted exactly when its request is pending for its own window, and only then consumes anything |
| SnapshotRequests.RunKeepsInvariant | codex-app-replica/src-tauri/src/app_state_snapshot.rs:116-234 | every step of every interleaving keeps order of issue, soundness of answers and spread of pending requests |
| SnapshotRequests.ProtocolSafe | codex-app-replica/src-tauri/src/app_state_snapshot.rs:116-254 | in every reachable state ids are unique, each request was accepted at most once, by its own window and checked before 60 s, and at most two are pending |
| SnapshotRequests.ReplyAnswered | codex-app-replica/src-tauri/src/app_state_snapshot.rs:129-150 | an undelayed reply is accepted exactly if its request is pending for its own window and less than 60 s old, and then uses up that request only |
| SnapshotRequests.EmittedAnswerable | codex-app-replica/src-tauri/src/app_state_snapshot.rs:202-234 | an emitted request stays open to the main window for exactly 60 s, and the next one is due in 30 s |
| SnapshotRequests.FailedNeverAccepted | codex-app-replica/src-tauri/src/app_state_snapshot.rs:222-231 | a request that could not be emitted is withdrawn, others stay, and over every later run no reply is accepted for it |
| SnapshotRequests.UnfocusedSkips | codex-app-replica/src-tauri/src/app_state_snapshot.rs:184-196 | an unfocused window is asked nothing and uses no number |
| SnapshotRequests.AcceptedInTime | codex-app-replica/src-tauri/src/app_state_snapshot.rs:129-150 | in a run whose replies are accepted within d of their check, every request is accepted before the time to live plus d |
| SnapshotRequests.OldestAnswer | codex-app-replica/src-tauri/src/app_state_snapshot.rs:129-150 | a run that attains that bound |
| SnapshotRequests.AcceptedAgeExactly | codex-app-replica/src-tauri/src/app_state_snapshot.rs:129-150 | an age bounds all acceptances of all such runs if and only if it is at least the time to live plus d |
| SnapshotRequests.TimeToLiveKeptExactly | codex-app-replica/src-tauri/src/app_state_snapshot.rs:129-150 | the time to live holds at acceptance in all such runs if and only if d is zero |
| ThreadLoader.Loader.Begin | codex-app-replica/src/App.tsx:4488-4495 | a load takes the next number, shows loading and clears what its kind clears |
| ThreadLoader.Loader.Respond | codex-app-replica/src/App.tsx:4496-4519 | a response is shown only by the newest request; a thread is cached in any case |
| ThreadLoader.RunKeepsInvariant | codex-app-replica/src/App.tsx:4488-4814 | every interleaving keeps log, shown conversation and loading flag in step with the newest request |
| ThreadLoader.LatestRequestWins | codex-app-replica/src/App.tsx:4488-4814 | applied numbers strictly increase, none is applied after a newer request began, and loading holds exactly while the newest is outstanding |
| ThreadLoader.ArrivalOrderInvisible | codex-app-replica/src/App.tsx:4488-4814 | two runs whose newest request got the same answer show the same, whatever happened before |
| ThreadLoader.ShownMeanwhile | codex-app-replica/src/App.tsx:4770-4814 | until its own response a refresh that does not clear keeps the conversation, any other load shows none, and only a local load drops the remote task, whatever older requests do |
| ThreadLoader.AnswersCached | codex-app-replica/src/App.tsx:4500-4507 | over every run the cache holds exactly the threads that were answered, shown or not, each with one of its answers |
| ThreadLoader.LaterAnswerCached | codex-app-replica/src/App.tsx:4500-4507 | a later answer for a thread replaces the earlier one |
| ThreadRoutes.ComponentRoundTrip | codex-app-replica/src/App.tsx:994-1020 | decoding an encoded component gives it back, over UTF-8 of every length |
| ThreadRoutes.UnescapeCharRoundTrip | codex-app-replica/src/App.tsx:994-1006 | the escaped bytes of a character are read back as that character and no more is consumed |
| ThreadRoutes.ComponentChars | codex-app-replica/src/App.tsx:1008-1020 | an encoded id is an allowed segment if and only if it is not empty and has none of ! ' ( ) * |
| ThreadRoutes.ParsedAfterBuilding | codex-app-replica/src/App.tsx:633-678 | what every built route parses to: none with one of the marks or a blank id, and otherwise the same route with its id trimmed |
| ThreadRoutes.RouteRoundTripExactly | codex-app-replica/src/App.tsx:633-678 | parsing a built route gives it back if and only if the id is not empty, is trimmed and has none of ! ' ( ) * |
| ThreadRoutes.BuildInjective | codex-app-replica/src/App.tsx:1008-1020 | different routes have different paths, across all four forms |
| ThreadRoutes.FormsExactly | codex-app-replica/src/App.tsx:633-678 | a path is a route exactly in one of the four forms with an allowed segment, and then its kind and shell are that form's and its id is the decoded segment |
| ThreadRoutes.SearchAndHashIgnored | codex-app-replica/src/App.tsx:879-881 | a search or hash after any path makes no difference |
| ThreadRoutes.ParsedIdTidy | codex-app-replica/src/App.tsx:994-1006 | a parsed id is never blank or padded |
| ThreadRoutes.MalformedKept | codex-app-replica/src/App.tsx:994-1006 | a segment that cannot be decoded, as any that ends in a percent sign, is the id as it stands |
| ThreadRoutes.OnlyWellFormed | codex-app-replica/src/App.tsx:994-1006 | only well-formed UTF-8 is decoded, neither surrogates nor encodings that are too long |
| ThreadRoutes.UnescapedExactly | codex-app-replica/src/App.tsx:1008-1020 | which characters are left alone when an id is encoded |
| WrapperArgs.ParseWrapperArgs | tools/argument-comment-lint/wrapper_common.py:55-104 | the loop computes the split at the first separator and the flags of a left-to-right scan |
| WrapperArgs.BuildFinalArgs | tools/argument-comment-lint/wrapper_common.py:107-122 | the built command line: defaults, linter arguments, separator, cargo arguments |
| WrapperArgs.ScanExactly | tools/argument-comment-lint/wrapper_common.py:55-104 | each flag is set exactly if some argument in its place sets it, by itself or as a value; values are not read as flags and an option without its value sets nothing |
| WrapperArgs.TargetsNamed | tools/argument-comment-lint/wrapper_common.py:67-75 | the arguments that name a cargo target, alone or with a value |
| WrapperArgs.DefaultsExactly | tools/argument-comment-lint/wrapper_common.py:107-122 | the whole command line: each default exactly if nothing settles it, all targets exactly if nothing is fixed and no target is named |
| WrapperArgs.PartsReconstruct | tools/argument-comment-lint/wrapper_common.py:55-104 | linter and cargo arguments with the separator put back are the command line |
| WrapperArgs.ReparsedBuild | tools/argument-comment-lint/wrapper_common.py:55-122 | parsing what was built finds the same arguments with every default present, also after dangling options |
| WrapperArgs.NormalisationIdempotentExactly | tools/argument-comment-lint/wrapper_common.py:55-122 | building from what was built changes nothing, for every command line, if and only if the manifest path cannot be taken for the separator |
| WrapperArgs.MistakenManifest | tools/argument-comment-lint/wrapper_common.py:107-122 | otherwise the command line grows at every pass |
| BrowserOrigins.NormalizedOriginList | codex-app-replica/src-tauri/src/browser_use_settings.rs:414-436 | the loop computes the trimmed non-blank strings in order of first occurrence |
| BrowserOrigins.NormalizedTidy | codex-app-replica/src-tauri/src/browser_use_settings.rs:414-436 | such a list has no duplicates, no blanks and no untrimmed entries |
| BrowserOrigins.StringsReadBack | codex-app-replica/src-tauri/src/browser_use_settings.rs:402-436 | a tidy list that is written reads back as it was |
| BrowserOrigins.AddReads | codex-app-replica/src-tauri/src/browser_use_settings.rs:221-259 | an add puts the origin on its list and takes it off the other; other lists, modes and keys read as before |
| BrowserOrigins.AddedLast | codex-app-replica/src-tauri/src/browser_use_settings.rs:231-241 | a new origin goes to the end and one already listed stays where it is |
| BrowserOrigins.RemoveReads | codex-app-replica/src-tauri/src/browser_use_settings.rs:261-285 | a removal takes the origin off its list; other lists, modes and keys read as before |
| BrowserOrigins.SkippedWriteInvisible | codex-app-replica/src-tauri/src/browser_use_settings.rs:287-296 | when the lists do not change, the edited and the stored table read alike |
| BrowserOrigins.SettingsFile.AddOrigin | codex-app-replica/src-tauri/src/browser_use_settings.rs:221-296 | rejects an invalid origin; otherwise the returned settings are a fresh read of what is now stored |
| BrowserOrigins.SettingsFile.RemoveOrigin | codex-app-replica/src-tauri/src/browser_use_settings.rs:261-296 | the same for removals, including missing tables |
| BrowserOrigins.SettingsFile.WriteApprovalMode | codex-app-replica/src-tauri/src/browser_use_settings.rs:208-219 | the written mode reads back, every other mode and all six lists read as before, and the returned settings are a fresh read |
| BrowserOrigins.FileReadsBack | codex-app-replica/src-tauri/src/browser_use_settings.rs:333-378 | a file written out in full, under its own keys, reads back entry by entry |
| BrowserOrigins.OtherwiseAsks | codex-app-replica/src-tauri/src/browser_use_settings.rs:333-353 | a missing, unknown or mistyped mode asks always |
| BrowserOrigins.OtherwiseEmpty | codex-app-replica/src-tauri/src/browser_use_settings.rs:380-436 | a missing or mistyped table or list is empty |
| BrowserOrigins.ListsStayDisjoint | codex-app-replica/src-tauri/src/browser_use_settings.rs:221-436 | over every sequence of operations lists stay tidy, disjoint lists stay disjoint, and untouched tables keep their lists |
| BrowserOrigins.RemoveUndoesAdd | codex-app-replica/src-tauri/src/browser_use_settings.rs:221-285 | removing an origin that was new restores every list |
| DebugLog.RequestLog.RequestStarted | codex-app-replica/src-tauri/src/debug_app_server.rs:145-183 | the bounded log follows the one that forgets nothing, and the handle names the new entry |
| DebugLog.RequestLog.RequestEnded | codex-app-replica/src-tauri/src/debug_app_server.rs:185-222 | so it does when a request completes or fails, also one no longer listed |
| DebugLog.RequestLog.ClearRequests | codex-app-replica/src-tauri/src/debug_app_server.rs:311-315 | and when a host is cleared, which keeps its numbering |
| DebugLog.CloseTruncates | codex-app-replica/src-tauri/src/debug_app_server.rs:185-222 | ending a request and cutting the log to 200 commute |
| DebugLog.BoundedKeepsNewest | codex-app-replica/src-tauri/src/debug_app_server.rs:145-341 | over every sequence of operations each host lists the newest 200 entries of the full log, numbered without gaps |
| DebugLog.EndingSettlesOneEntry | codex-app-replica/src-tauri/src/debug_app_server.rs:185-222 | ending a listed request settles that entry with its result or its trimmed error, or a stated one if that is blank, and with its saturated duration, and changes no other |
| DebugLog.StartListsEntry | codex-app-replica/src-tauri/src/debug_app_server.rs:145-175 | a started request is listed first as given and without an outcome |
| DebugLog.ListBounded | codex-app-replica/src-tauri/src/debug_app_server.rs:145-175 | a host lists the first 200 entries of its full log, or all if there are fewer |
| DebugLog.NumbersNeverReused | codex-app-replica/src-tauri/src/debug_app_server.rs:151-154 | numbers count the requests ever started on a host, also across clears |
| DebugLog.HostNames | codex-app-replica/src-tauri/src/debug_app_server.rs:378-384 | padding does not make another host, and a blank one is the local one |
| DebugLog.UnknownHandleIgnored | codex-app-replica/src-tauri/src/debug_app_server.rs:179-182 | the handle given out after a failed start matches no entry |
| RuntimeVersion.SettledExactly | sdk/python/_runtime_setup.py:329-339 | a spelling is its own normal form if and only if it has no outer space, no prefix and no spelled-out prerelease |
| RuntimeVersion.SpellingsNormalise | sdk/python/_runtime_setup.py:329-339 | every prefix and spelling of a prerelease has the compact spelling as its normal form |
| RuntimeVersion.SpellingsShareTag | sdk/python/_runtime_setup.py:342-354 | all spellings of a prerelease have one tag, and the tag is its own tag |
| RuntimeVersion.TagsWrittenOut | sdk/python/_runtime_setup.py:342-354 | for numbers joined by dots, every prefix and spelling has the tag with the spelled-out prerelease and its number, and a plain release the tag of the numbers |
| RuntimeVersion.PrereleasesExactly | sdk/python/_runtime_setup.py:344-346 | the normalised prereleases are exactly numbers joined by dots, then a, b or rc, then a number |
| RuntimeVersion.PlainReleasesShareTag | sdk/python/_runtime_setup.py:342-354 | so do the spellings of a plain release |
| RuntimeVersion.ReleaseRoundTripExactly | sdk/python/_runtime_setup.py:329-350 | normalising the release version of any version gives its normal form back if and only if, behind one prefix, it is unpadded, has no second prefix and precedes its prerelease name by nothing that makes a name of the short one |
| RuntimeVersion.NamelessExactly | sdk/python/_runtime_setup.py:329-339 | when the three substitutions leave a spelled-out prerelease behind, in terms of their input |
| RuntimeVersion.DoubledPrefixUnsettled | sdk/python/_runtime_setup.py:329-339 | a doubled prefix of either kind loses one prefix at each pass |

## Left out

- Fling.Snapshot.MomentumTick: the monitor under the fling is looked up by a function given as an input; the lookup by distance, the window calls and the emitted events are not part of this model, and a failed window call is the `GiveUp` step of the protocol.
- OverlayGuarantees.HysteresisHarmlessExactly: the error of binary floating point and the saturation of the score at 32 bits are not modelled; scores are exact integers.
- OverlayGuarantees.LayoutContainedExactly: element and display sizes are whole; the sides of a fractional rectangle are rounded one by one and may end a pixel outside.
- Fling.Snapshot.DragRelease: nothing else runs meanwhile, so the generation check in the loop cannot fail; it is a step of `MomentumProtocol`.
- Scheduler.AutomationStore.ProcessDueHeartbeats: edits and eligibility reports that arrive while a turn is being started are not modelled; operations are serialised and writes succeed. The order in which records are listed is an input.
- Scheduler.ScheduledFiringsSpaced: manual runs are excluded; the exact condition under which one keeps the spacing is `ManualRunKeepsSpacingExactly`.
- OverlayLayout.ExpandMascot: the padding above the mascot is computed as in the code, but no property mentions it: it influences no layout, since windows end where their content ends.
- Names, prompts, models and history of automations and the runs of cron automations, which do not influence when a heartbeat is due.
- BrowserOrigins.SettingsFile.AddOrigin: how an address is normalised to an origin is left to the caller, who passes the trimmed origin or none.
- DeltaTelemetry.RawDeltaTelemetry.Record: totals and request numbers do not wrap at 64 bits.
- DebugLog.RequestLog.RequestStarted: sequence numbers do not overflow; previews are strings; an unreachable log is not a step.
- ThreadLoader.Loader.Begin: a blank task id, which returns before anything changes, goal editors, read markers and the choice of an assistant turn.
- ThreadRoutes.BuildThreadRoutePath: lone surrogates, which cannot be encoded; a character here is a Unicode scalar value.
- Dragging, opening and positioning the overlay window before a release; the fields and cache of app-state snapshots; review metrics; notifications, ordering of hosts and snapshots in the debug view; other effects of the conversation view.
- Files, TOML and JSON: a store reads back what was written.
