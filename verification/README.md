# Verified models of the session, the kernel glue and the small algorithms

A Dafny project that models the state machines and algorithms below and proves what they promise,
over all inputs and all runs. `dafny verify dfyconfig.toml` checks all of it.

Where the source changes things in place, so does the model: a class or a loop over arrays, with a
contract that ties the result or the new state to a specification function; the promises are then
lemmas about those functions. What the source cannot decide (a child's exit, a callback's result, a
reply, a read) is any value at all.

- **Session supervisor** (`Supervisor`, `PollRound`, `SystemCalls`, `Children`, `LockStream`,
  `RestartLimits`): handles of child processes, a poll loop over them, restarts, the lock screen's line
  protocol. Every child ever started is in exactly one live handle or has been reaped exactly once; this is
  kept by every method and ends, after teardown, in all of them reaped. `PollRound` is a round as what each
  reported entry did, and the loop as a list of rounds; `SystemCalls` is what the supervisor asks the system.
- **Session plan** (`SessionPlan`): what is started, in what order, with which display and address.
- **Runtime power management** (`RuntimePm`, `RuntimePmCalls`, `RuntimePmRuns`): a counted slot per device, wrap-around
  jiffies, a delayed suspend that may fire late. The class works on the shared table; its runs are
  sequences of steps in any order, with any results.
- **Platform devices and drivers** (`Platform`, `PlatformSteps`, `PlatformRuns`, `PlatformTakenBack`,
  `PlatformTables`):
  probe and remove callbacks may call every entry point again, to any depth, so the calls in progress are
  a stack. A step is what the code does between two callbacks; each method of the class is a run of the
  machine.
- **Components** (`Components`): binding with rollback. Each event is replayed against a machine that
  breaks on any unbind out of order, any group left open and any release while something is bound.
- **Firmware loader** (`MdtLoader`, `MdtImage`), **A8 blur** (`Blur`), **UTF-8 and text shaping** (`Utf8`,
  `TextShaping`), **agent loop** (`AgentLoop`), **grapheme table** (`GraphemeTable`), **PPM files**
  (`Ppm`, `PpmDiff`), **pointer confinement** (`Nearest`).

Where a promise is not kept, the project says exactly when it is:

- `utf8_next`'s comment says any malformed sequence yields U+FFFD and one byte; continuation bytes are
  not looked at (`Utf8.KeepsItsPromiseIff`, `Utf8.SwallowsTheNextByte`).
- After a suspend callback fails the pending suspend is not retried, and only then
  (`RuntimePmRuns.FailedSuspendIsNotRetried`, `RuntimePmRuns.LostFromTheStart`). Successful callbacks
  alternate exactly for drivers with both callbacks or neither (`RuntimePmRuns.AlternateIff`), and not
  across a disable (`RuntimePmRuns.ResumedTwiceAcrossDisable`).
- A device can stay bound to a driver after `platform_driver_unregister` returns: when a remove registers a
  driver, an earlier device is taken back. In runs whose callbacks leave alone what a callback is in progress
  for, this can happen exactly if some driver with a remove probes two devices
  (`PlatformTakenBack.UnregisterUnbindsIff`). A callback that deletes or unregisters what a callback is in
  progress for unseats it (`PlatformRuns.SeatedIff`, `PlatformRuns.ImpoliteCallsBreakIt`).
- A device whose first matching driver fails to probe is not offered to the next one
  (`PlatformTakenBack.NextDriverNotTried`).
- A report of the lock screen's pipe is acted on for a lock screen started later in the same round exactly
  when the old one's exit, handled before it, started the new one (`PollRound.PipeReportIs`,
  `PollRound.LateReport`). For children's exits it never happens (`Supervisor.Supervisor.Round`).
- The bridge's socket and its address differ when the runtime directory has a comma
  (`SessionPlan.AddressesAgreeIff`).
- Segments from 100 on share the files of earlier ones (`MdtLoader.SplitNamesDiffer`).
- `diff` divides by zero when two differing files say their width is 0 (`PpmDiff.Diff`).
- Removing a component leaves the master unbound, even if another component in the table could stand in
  (`Components.Components.ComponentDel`).

## Model

| member | source | states |
|---|---|---|
| Supervisor.Supervisor.Run | desktop/de/anchor/src/supervisor.rs:185-194 | over every run (any exits, restarts, requests, lock screens, failed starts, ended loop): when `run` returns, the children that were waited for are exactly the children ever started, each once; the code is 1 exactly when the session could not be brought up, or ended because a component was given up on or could not be restarted, else 0 |
| Supervisor.Supervisor.BringUp | desktop/de/anchor/src/supervisor.rs:196-240 | the compositor is child 0, the components follow in order with consecutive numbers up to the first that cannot be started, and none after it; it succeeds exactly when the compositor and every component are up |
| Supervisor.Supervisor.StartComponents | desktop/de/anchor/src/supervisor.rs:203-208 | components 0 to n-1 are up in order, no other one is, and it succeeds exactly when that is all of them |
| Supervisor.Supervisor.Watch | desktop/de/anchor/src/supervisor.rs:242-280 | the polled descriptors are exactly the live children, the control socket, the open lock pipe and the signals, in the order of the source, each once |
| Supervisor.Supervisor.Dispatch | desktop/de/anchor/src/supervisor.rs:281-311 | a ready child entry reaps the very child poll was asked about; no other live child's handle changes unless the session is ending; what it does to the lock screen, to its pipe, to what was heard and to the number of children is one deed that fits its owner and the news; it asks the system for exactly what that deed needs; and the session ends exactly when the deed says so, and how |
| Supervisor.Supervisor.Round | desktop/de/anchor/src/supervisor.rs:242-311 | in every round, whatever poll reports: exactly the entries reported are handled, in order, or exactly those up to the one that ends the session; each child entry handled has reaped the child that was polled there; every child reaped was started before the round; and the pipe is read from the polled child, from nobody, or from a later one, each exactly as PipeReport says |
| PollRound.NothingDropped | desktop/de/anchor/src/supervisor.rs:281-311 | so an owner that poll reports is handled unless an entry before it ends the session, and no other owner is |
| PollRound.EndsIff | desktop/de/anchor/src/supervisor.rs:281-431 | what ends a session, each kind of end exactly for its reason: the compositor's exit, reported or found with another child's; a component given up on or not restarted, the only ones with exit code 1; a request; a signal |
| PollRound.NextIs | desktop/de/anchor/src/supervisor.rs:281-499 | what each deed does to the lock screen, to its pipe, to what was heard of it and to the number of children |
| PollRound.PipeReportIs | desktop/de/anchor/src/supervisor.rs:268-307 | a report of the lock pipe is acted on for the polled child exactly if the lock screen's exit was not handled before it in the round, for nobody exactly if it was and nothing was started, and for a child started later in that round exactly if that exit left no word, was within the crash limit and a new lock screen could be started |
| PollRound.LateReport | desktop/de/anchor/src/supervisor.rs:281-311 | so the promise fails for the pipe: for any open pipe and any such exit reported together with it, the read is its successor's |
| Supervisor.Supervisor.RunLoop | desktop/de/anchor/src/supervisor.rs:242-311 | over any results of poll there is one turn for each that was waited for: everything there is to poll is polled, everything reported is handled as in a round, an interrupted poll is nothing, and what each turn begins with is what the one before it left; it goes on until a turn ends the session, poll fails, or there is nothing left to poll; all invariants are kept |
| Supervisor.Supervisor.PlaceComponent | desktop/de/anchor/src/supervisor.rs:139-162 | a new component process only ever replaces a handle that is not live |
| Supervisor.Supervisor.Start | desktop/de/anchor/src/supervisor.rs:147-162 | the sockets a component needs have all accepted a connection, in order, and then it is started, exactly when it succeeds; its run begins at that moment; a failure changes no component |
| Supervisor.Supervisor.WaitForAll | desktop/de/anchor/src/supervisor.rs:147-183 | every required socket in turn, up to the first that does not accept a connection |
| Supervisor.Supervisor.AfterRun | desktop/de/anchor/src/supervisor.rs:329-363 | given how long the run lasted: given up on exactly when the component has exited more than the maximum number of times and its last that many runs were all unhealthy; otherwise it is restarted, counted once, after its sockets accept, or the session ends, with the compositor's exit if that is why |
| Supervisor.Supervisor.ComponentExited | desktop/de/anchor/src/supervisor.rs:329-363 | the polled component is reaped; the compositor is asked about first; the run that is judged lasted from the component's last start to now, and the runs before it are those it was restarted after; given up on exactly by those, and what each outcome asks of the system, counts and starts |
| PollRound.EndAsks | desktop/de/anchor/src/supervisor.rs:329-363 | the end of a run asks about a live compositor first; a restart asks for every socket and then the process; a component is started again exactly when it is back |
| Supervisor.Supervisor.StartLock | desktop/de/anchor/src/supervisor.rs:437-465 | a lock screen is started only over a dead handle, after a socket pair could be made, with an empty stream and unconfirmed; on failure the handle and the count of children stay |
| Supervisor.Supervisor.ReadAll | desktop/de/anchor/src/supervisor.rs:467-481 | what is read until there is nothing more, or the other end is closed, is what arrives, and which of the two it was |
| SystemCalls.GatheredIs | desktop/de/anchor/src/supervisor.rs:471-481 | bytes read one after the other, up to the first read that would block or finds the end, are all of them, in order |
| SystemCalls.InterruptedAgain | desktop/de/anchor/src/supervisor.rs:471-481 | an interrupted read changes nothing, wherever it comes |
| Supervisor.Supervisor.HandleLines | desktop/de/anchor/src/supervisor.rs:467-499 | whatever is pending, exactly its newline-terminated lines are handled and its unterminated end stays pending |
| Supervisor.Supervisor.DrainLock | desktop/de/anchor/src/supervisor.rs:467-499 | after draining, what was heard is what was heard before and all that arrived; the lines handled are its newline-split, the pending text is the unfinished rest, and the confirmation says whether the locked line was among them; the pipe stays open exactly if it was, has not ended and this is not the last time |
| Supervisor.Supervisor.CountCrash | desktop/de/anchor/src/supervisor.rs:511-532 | the pruned crash list is the full crash history since the last unlock, cut to the last 60 s, and the answer given is the exact limit |
| Supervisor.Supervisor.AfterLock | desktop/de/anchor/src/supervisor.rs:511-537 | unlocked forgets the crashes, refused keeps them, neither starts anything; anything else counts one more crash and starts a new lock screen exactly when the last minute holds at most five and it can be started |
| Supervisor.Supervisor.LockExited | desktop/de/anchor/src/supervisor.rs:501-538 | the polled lock screen is reaped; the last outcome among all the lines it wrote, what is still in the pipe included, decides what happens to the crash list and whether a new lock screen is asked for and started, unless the compositor is gone too, which ends the session |
| Supervisor.Supervisor.Answer | desktop/de/anchor/src/supervisor.rs:386-431 | `status` says locked exactly when the current lock child is live and has written the locked line since it was started, and how often each component was restarted; `lock` never starts a second lock screen over a live one, and otherwise starts one exactly when there is one and it can be started; `quit` and `shutdown` end the session, and nothing else does; anything else is refused |
| Supervisor.Supervisor.HandleControl | desktop/de/anchor/src/supervisor.rs:375-384 | a request that has arrived has its effect and no other; none has none |
| PollRound.WordsAre | desktop/de/anchor/src/supervisor.rs:386-522 | the words that are looked for in a request and in a lock screen's output, and that any others ask for nothing and are a crash |
| Supervisor.Supervisor.Teardown | desktop/de/anchor/src/supervisor.rs:540-574 | every live child is waited for, the components in order, the lock screen, the Setup Assistant and last the compositor; then no handle is live, and the lock pipe and the control socket are closed |
| Children.SpawnConserves | desktop/de/anchor/src/supervisor.rs:139-162 | putting a new child in a handle that is not live keeps every child held or reaped exactly once |
| Children.OverwritingLoses | desktop/de/anchor/src/supervisor.rs:437-465 | putting one over a live handle always loses a child: the guards before each start are needed |
| Children.ReapConserves | desktop/de/anchor/src/supervisor.rs:313-322 | waiting for a handle moves its child from held to reaped |
| Children.AllReaped | desktop/de/anchor/src/supervisor.rs:540-574 | with no live handle left, every child started has been reaped exactly once |
| LockStream.CutAnywhere | desktop/de/anchor/src/supervisor.rs:467-499 | however the output is cut into reads, the handled lines are the newline-split of the concatenated stream and the tail is what follows the last newline |
| LockStream.InTwoReads | desktop/de/anchor/src/supervisor.rs:467-499 | handling a stream in two parts with the unfinished line kept in between is handling it whole |
| LockStream.LastWord | desktop/de/anchor/src/supervisor.rs:482-498 | a line with the outcome prefix makes its word the outcome, except that `locked` only confirms; any other line changes neither |
| RestartLimits.GivesUpExactly | desktop/de/anchor/src/policy.rs:33-40 | with the streak the supervisor keeps, decide gives up exactly when there were more than max exits and the last max runs were all unhealthy, over every history |
| RestartLimits.StreakCounts | desktop/de/anchor/src/policy.rs:33-40 | the failure streak exceeds k exactly when there were more than k exits and the last k runs were unhealthy |
| RestartLimits.CrashesAreTheLastMinute | desktop/de/anchor/src/supervisor.rs:511-532 | pruning at every crash leaves exactly the history filtered to the last 60 s |
| RestartLimits.AtMostFiveRestarts | desktop/de/anchor/src/supervisor.rs:55-59 | between two unlocks, no 60-second span holds more than five automatic restarts of the lock screen |
| RestartLimits.RestartedIff | desktop/de/anchor/src/supervisor.rs:523-531 | a crash is answered with a restart exactly when at most five crashes lie in the last minute of the whole history |
| RestartLimits.RestartedUnless | desktop/de/anchor/src/supervisor.rs:523-531 | a crash is answered with a restart unless the fifth crash before it was less than 60 seconds ago |
| RestartLimits.AnswersAreRestarts | desktop/de/anchor/src/supervisor.rs:523-531 | the answers the supervisor gave, crash by crash, are those of the exact limit |
| SessionPlan.DefaultSession | desktop/de/anchor/src/session.rs:139-236 | the plan for every mode and every set of left-out names: components in start order, the bus address, the note, the lock screen and the Setup Assistant |
| SessionPlan.PlanBus | desktop/de/anchor/src/session.rs:165-178 | the bus and the portal, and the bus address exactly when there is a bus |
| SessionPlan.PlanBridge | desktop/de/anchor/src/session.rs:179-195 | the bridge and the menus exactly when they are wanted and there is a bus; a note exactly when the bridge is wanted and there is none |
| SessionPlan.PlanScene | desktop/de/anchor/src/session.rs:212-232 | one scene of the shell: the menu bar alone moves to the privileged display and socket and passes the ordinary one on |
| SessionPlan.PlanScenes | desktop/de/anchor/src/session.rs:212-232 | the scenes of the mode, in stacking order, without the left-out ones |
| SessionPlan.SessionsAre | desktop/de/anchor/src/tests.rs:131-236 | with nothing left out, the components of a desktop, an installer and a login window, in order |
| SessionPlan.WithoutTheBus | desktop/de/anchor/src/tests.rs:283-289 | without the bus a desktop has neither bridge nor menus, and everything else |
| SessionPlan.AsidesAre | desktop/de/anchor/src/session.rs:204-236 | the lock screen and the Setup Assistant belong to a desktop, the latter only until it is done; neither is a component |
| SessionPlan.CommandsAre | desktop/de/anchor/src/session.rs:165-236 | what each component runs |
| SessionPlan.ToldAre | desktop/de/anchor/src/session.rs:150-236 | the scene, the shell's path and the bus address each component is told, and which are told none |
| SessionPlan.WaitsAre | desktop/de/anchor/src/session.rs:160-236 | the sockets each component waits for |
| SessionPlan.EveryNeedIsMet | desktop/de/anchor/src/session.rs:139-236 | each socket a component waits for is the compositor's or the menu bar's, or one an earlier component listens on, in every session |
| SessionPlan.AddressesAgreeIff | desktop/de/anchor/src/session.rs:75-91 | the path in the address the bridge and the menus are told is the socket they wait for, and the session bus's own address names its socket, exactly when the runtime directory has no comma |
| SessionPlan.PathOfAddress | desktop/de/anchor/src/session.rs:86-91 | unix_socket_path inverts making an address exactly for comma-free paths |
| SessionPlan.LeavingOutMore | desktop/de/anchor/src/session.rs:139-147 | leaving out more names yields a subsequence of the component names |
| SessionPlan.PortalOnlyWithBus | desktop/de/anchor/src/session.rs:61-72 | applications are told to use the portal exactly when the bridge is planned, and then always have a bus address |
| SessionPlan.OnlyTheBarIsPrivileged | desktop/de/anchor/src/session.rs:152-232 | only the menu bar and the lock screen get the privileged display; every other component, and what the menu bar launches, gets the ordinary one |
| RuntimePm.EntryIsPrivate | kmod/drm-msm/freebsd/msm_freebsd_power.c:53-98 | the shared eight-slot table behaves as one private slot per device: a call does to its device what the entry point's own step does and changes no other device's state |
| RuntimePm.RefusedIffFull | kmod/drm-msm/freebsd/msm_freebsd_power.c:75-98 | a device is refused exactly when it is new and all slots are taken |
| RuntimePm.LeftIsTrue | kmod/drm-msm/freebsd/msm_freebsd_power.c:160-172 | the wrapped jiffies difference shows the true time left whenever the deadline is ahead, and exactly until it is 2^63 jiffies overdue |
| RuntimePm.RuntimePm.Get | kmod/drm-msm/freebsd/msm_freebsd_power.c:75-98 | finds the device's slot, else initialises the first free one, else -1 |
| RuntimePm.RuntimePm.Resume | kmod/drm-msm/freebsd/msm_freebsd_power.c:109-124 | runs the callback when PM is enabled and there is one; active exactly when it succeeded |
| RuntimePm.RuntimePm.Suspend | kmod/drm-msm/freebsd/msm_freebsd_power.c:126-138 | a failed callback leaves the device active, anything else makes it inactive |
| RuntimePm.RuntimePm.Idle | kmod/drm-msm/freebsd/msm_freebsd_power.c:159-174 | suspends at once, or arms the work for the time left until the deadline |
| RuntimePm.RuntimePm.SuspendWorkRuns | kmod/drm-msm/freebsd/msm_freebsd_power.c:177-188 | the delayed work, once it has the lock: re-checks use and deadline before it suspends |
| RuntimePm.RuntimePm.Put | kmod/drm-msm/freebsd/msm_freebsd_power.c:190-236 | the three puts: count down, and idle only from the last put that asks for it |
| RuntimePm.RuntimePm.GetSync | kmod/drm-msm/freebsd/msm_freebsd_power.c:203-218 | cancels the work, counts up and resumes; a failed resume still counts |
| RuntimePm.RuntimePm.SetField | kmod/drm-msm/freebsd/msm_freebsd_power.c:238-269 | mark_last_busy, the delay, use_autosuspend, enable and disable change their own field only |
| RuntimePm.RuntimePm.DontUseAutosuspend | kmod/drm-msm/freebsd/msm_freebsd_power.c:272-284 | stops autosuspend, cancels the work, and suspends an idle device |
| RuntimePm.RuntimePm.GetIfInUse | kmod/drm-msm/freebsd/msm_freebsd_power.c:286-299 | counts up only while the device is in use |
| RuntimePm.RuntimePm.ForceSuspend | kmod/drm-msm/freebsd/msm_freebsd_power.c:349-360 | suspends whatever the count is |
| RuntimePm.RuntimePm.ForceResume | kmod/drm-msm/freebsd/msm_freebsd_power.c:362-374 | resumes a device that somebody counts on, without counting, and does nothing to any other |
| RuntimePmCalls.ForceResumeIs | kmod/drm-msm/freebsd/msm_freebsd_power.c:362-374 | from any state: in use, the resume callback is asked exactly if the device is down, PM is enabled and there is one, the device is then active exactly if 0 is returned, and count, timer and last busy stay; not in use, nothing happens |
| RuntimePmCalls.GetSyncIs | kmod/drm-msm/freebsd/msm_freebsd_power.c:203-218 | from any state: counted, the pending suspend cancelled, and resumed in the same way |
| RuntimePmCalls.ForceSuspendIs | kmod/drm-msm/freebsd/msm_freebsd_power.c:349-360 | from any state: the pending suspend cancelled, and the device down unless its own callback fails, whatever the count; 0 is returned |
| RuntimePmCalls.PutSyncIs | kmod/drm-msm/freebsd/msm_freebsd_power.c:190-224 | only the last put does more than count: the device is suspended at once or, using autosuspend before its deadline, the work is armed for that very time |
| RuntimePmCalls.PutSyncSuspendIs | kmod/drm-msm/freebsd/msm_freebsd_power.c:226-230 | the last put suspends at once, whatever the delay |
| RuntimePmCalls.PutNoidleIs | kmod/drm-msm/freebsd/msm_freebsd_power.c:232-236 | a put that only counts |
| RuntimePmCalls.DontUseAutosuspendIs | kmod/drm-msm/freebsd/msm_freebsd_power.c:271-284 | autosuspend off, the pending suspend cancelled, and a device not in use suspended at once |
| RuntimePmCalls.GetIfInUseIs | kmod/drm-msm/freebsd/msm_freebsd_power.c:286-299 | 1 and counted exactly if active and in use already; else 0 and nothing |
| RuntimePmCalls.AsksAre | kmod/drm-msm/freebsd/msm_freebsd_power.c:301-347 | whether it is active and whether PM is enabled; nothing changes |
| RuntimePmCalls.SettersAre | kmod/drm-msm/freebsd/msm_freebsd_power.c:238-335 | each setter sets its own field to what it was given; nothing happens |
| RuntimePmCalls.WorkIs | kmod/drm-msm/freebsd/msm_freebsd_power.c:177-188 | the work does nothing to a device in use, and treats an idle one like the put that made it idle |
| RuntimePmCalls.ForcedDownAndUp | kmod/drm-msm/freebsd/msm_freebsd_power.c:349-374 | a device in use that was forced down is up again after force_resume unless its resume callback fails |
| RuntimePmRuns.SuspendedOnlyIdle | kmod/drm-msm/freebsd/msm_freebsd_power.c:126-201 | in every interleaving of calls, timers and late work, suspend runs or the device goes inactive only with a count of 0, or by force_suspend |
| RuntimePmRuns.HeldUntilPut | kmod/drm-msm/freebsd/msm_freebsd_power.c:190-218 | an active, counted device stays active through any run without force_suspend until its count is put back, and the count is exactly gets minus puts |
| RuntimePmRuns.SuccessfulGet | kmod/drm-msm/freebsd/msm_freebsd_power.c:203-218 | a get that returns 0 leaves the device active and counted, and it returns 0 exactly when the device is active |
| RuntimePmRuns.NeverEarly | kmod/drm-msm/freebsd/msm_freebsd_power.c:159-188 | with autosuspend on and a delay of at least 0, no run suspends the device before last_busy + delay, however mark_last_busy moved the deadline and wherever jiffies wraps |
| RuntimePmRuns.IdleStepIff | kmod/drm-msm/freebsd/msm_freebsd_power.c:126-201 | an idle device that is down or owed a suspend stays so, step by step, exactly unless the step is a suspend callback that fails |
| RuntimePmRuns.SuspendNeverLost | kmod/drm-msm/freebsd/msm_freebsd_power.c:159-230 | after the put that made the device idle, as long as nobody gets or forces it or stops its autosuspend and no suspend callback fails, an active device has its work pending |
| RuntimePmRuns.FailedSuspendIsNotRetried | kmod/drm-msm/freebsd/msm_freebsd_power.c:126-188 | from every idle, overdue device with its one firing in flight: when the work runs and the device is marked busy, it is up before its deadline with nothing pending exactly if PM is enabled, there is a suspend callback and it failed |
| RuntimePmRuns.LostFromTheStart | kmod/drm-msm/freebsd/msm_freebsd_power.c:126-269 | such a device is reached from the start, for every clock, positive delay and driver with a suspend callback, so the suspend is lost in a run of plain calls |
| RuntimePmRuns.PendingWorkSuspends | kmod/drm-msm/freebsd/msm_freebsd_power.c:177-188 | pending work does suspend: after the deadline and the timer, with a callback that succeeds, the device is down |
| RuntimePmRuns.HistoryFits | kmod/drm-msm/freebsd/msm_freebsd_power.c:109-138 | in every run each callback comes in the other state, and the history of callbacks says exactly whether the device is active |
| RuntimePmRuns.QuietIff | kmod/drm-msm/freebsd/msm_freebsd_power.c:109-138 | the state changes without a callback exactly when PM is disabled or the driver has none |
| RuntimePmRuns.CallbacksAlternate | kmod/drm-msm/freebsd/msm_freebsd_power.c:109-138 | while PM stays enabled and the driver has both callbacks or neither, successful resumes and suspends strictly alternate |
| RuntimePmRuns.AlternateIff | kmod/drm-msm/freebsd/msm_freebsd_power.c:109-138 | for an enabled device they alternate in all runs that keep PM enabled if and only if the driver has both callbacks or neither |
| RuntimePmRuns.UnpairedRepeats | kmod/drm-msm/freebsd/msm_freebsd_power.c:109-374 | with only one of the two, from every enabled state, that one succeeds twice in a row when the device is forced down and got, twice |
| RuntimePmRuns.ResumedTwiceAcrossDisable | kmod/drm-msm/freebsd/msm_freebsd_power.c:315-374 | and PM has to stay enabled: from every state of every device with a resume callback, forcing it down while PM is disabled has it resumed twice in a row |
| Platform.First | kmod/drm-msm/freebsd/msm_freebsd_platform.c:242-284 | the driver a device is given: the first registered one that has a probe and matches |
| Platform.MatchesIff | kmod/drm-msm/freebsd/msm_freebsd_platform.c:147-251 | a driver with a table is for a device with a node that names some entry of it, before any empty one, as compatible; one without a table is for the devices of its name |
| Platform.FirstIs | kmod/drm-msm/freebsd/msm_freebsd_platform.c:266-284 | the driver a device is given is in the lowest slot of those with a probe that are for it; none exactly if there is no such slot |
| PlatformTables.Tables.constructor | kmod/drm-msm/freebsd/msm_freebsd_platform.c:44-46 | empty tables, at the start of the machine's runs |
| PlatformTables.Tables.ProbeSlot | kmod/drm-msm/freebsd/msm_freebsd_platform.c:273-291 | one slot of probe_all is a run of the machine, whatever its probe calls back, and ends at the next slot |
| PlatformTables.Tables.ProbeAll | kmod/drm-msm/freebsd/msm_freebsd_platform.c:265-294 | a whole scan is a run of the machine that takes the scan off the stack |
| PlatformTables.Tables.DriverRegister | kmod/drm-msm/freebsd/msm_freebsd_platform.c:296-313 | -ENOSPC exactly when all driver slots are taken, and then nothing changed; otherwise registration and a scan, as a run of the machine |
| PlatformTables.Tables.DriverUnregister | kmod/drm-msm/freebsd/msm_freebsd_platform.c:315-334 | the sweep and the removal from the table, as a run; the driver is no longer registered, and if no device was taken back none is bound to it |
| PlatformTables.Tables.PdevAdd | kmod/drm-msm/freebsd/msm_freebsd_platform.c:336-356 | ENOSPC exactly when all device slots are taken, and then nothing changed; otherwise addition and a scan |
| PlatformTables.Tables.PdevDel | kmod/drm-msm/freebsd/msm_freebsd_platform.c:358-375 | the device ends unbound and in no slot |
| PlatformSteps.ScanGoesOn | kmod/drm-msm/freebsd/msm_freebsd_platform.c:266-291 | one slot of a scan from any state: an unbound device some driver is for is bound to the first that is, and that one's probe is called; any other slot is passed over |
| PlatformSteps.ProbeReturns | kmod/drm-msm/freebsd/msm_freebsd_platform.c:279-290 | a probe that returns 0 leaves its device bound, any other releases it, and the scan goes on with the next slot |
| PlatformSteps.SweepGoesOn | kmod/drm-msm/freebsd/msm_freebsd_platform.c:315-334 | one slot of an unregistration from any state: a device bound to the driver has its remove called, or is released if there is none; at the end the driver is in no slot |
| PlatformSteps.RemoveReturns | kmod/drm-msm/freebsd/msm_freebsd_platform.c:321-327 | whatever a remove returns its device is released |
| PlatformSteps.CallsAre | kmod/drm-msm/freebsd/msm_freebsd_platform.c:296-357 | a registration or addition takes the lowest free slot and looks at every device, or does nothing when there is none; an unregistration looks at every device |
| PlatformSteps.DeletionIs | kmod/drm-msm/freebsd/msm_freebsd_platform.c:358-375 | a deletion calls the remove of the driver the device is bound to, if there is one, and otherwise releases it and takes it out at once |
| PlatformSteps.DeletionReturns | kmod/drm-msm/freebsd/msm_freebsd_platform.c:358-375 | and after that remove does so |
| PlatformRuns.BoundToAMatch | kmod/drm-msm/freebsd/msm_freebsd_platform.c:242-375 | in every run, however calls nest, a device has at most one driver, one that matches it and has a probe, and only while the device is in the table |
| PlatformRuns.NoDeviceIsForgotten | kmod/drm-msm/freebsd/msm_freebsd_platform.c:265-356 | once every call has returned, a device some registered driver wants is bound exactly unless its last probe failed or its driver was unregistered |
| PlatformRuns.NothingLost | kmod/drm-msm/freebsd/msm_freebsd_platform.c:265-334 | with no failing probe and no unregistration no device is ever lost, so every wanted one is bound |
| PlatformRuns.SeatedIff | kmod/drm-msm/freebsd/msm_freebsd_platform.c:256-375 | each callback in progress keeps its device to itself, bound to its driver, exactly as long as no step deletes or sweeps a device a callback is in progress for |
| PlatformRuns.OneCallbackAtATime | kmod/drm-msm/freebsd/msm_freebsd_platform.c:265-375 | if callbacks neither delete a device nor unregister a driver in use by a callback, no probe or remove is entered for a device another one is in progress for, and none for a bound device's probe |
| PlatformRuns.ImpoliteCallsBreakIt | kmod/drm-msm/freebsd/msm_freebsd_platform.c:315-375 | and that condition is needed: from any state, a call that breaks it is followed by a run in which a callback loses its device |
| PlatformRuns.SecondCallback | kmod/drm-msm/freebsd/msm_freebsd_platform.c:358-375 | for a deletion whose driver has a remove it is at once a second callback for the device |
| PlatformRuns.AheadIff | kmod/drm-msm/freebsd/msm_freebsd_platform.c:315-334 | a sweep has every device still bound to its driver ahead of it exactly as long as no step probes one with that driver behind it |
| PlatformRuns.ForwardRunsStayRegistered | kmod/drm-msm/freebsd/msm_freebsd_platform.c:315-334 | in runs without such a step every bound device's driver is registered: after unregister no device is bound to the driver until it is registered again |
| PlatformRuns.CalmRunsGoForward | kmod/drm-msm/freebsd/msm_freebsd_platform.c:315-334 | remove callbacks that register and add nothing never cause such a step |
| PlatformTakenBack.UnregisterUnbindsIff | kmod/drm-msm/freebsd/msm_freebsd_platform.c:315-334 | the promise exactly: over all polite runs, no device is ever bound to a driver that is not registered, if and only if no driver with a remove probes two devices |
| PlatformTakenBack.TakenBackStays | kmod/drm-msm/freebsd/msm_freebsd_platform.c:265-334 | every step that probes a device behind the sweep of the driver being unregistered matters: in a polite run, if the callbacks in progress then just return, the unregistration returns with the device bound to the driver it removed |
| PlatformTakenBack.RegisterInRemoveTakesBack | kmod/drm-msm/freebsd/msm_freebsd_platform.c:296-334 | in any polite run and any table, with two devices of one driver, the second's remove registering some driver while the first still gets theirs leaves the first bound to the unregistered driver |
| PlatformTakenBack.BoundAfterUnregister | kmod/drm-msm/freebsd/msm_freebsd_platform.c:296-356 | and such runs start from empty tables, for every driver with a remove and every two devices it probes |
| PlatformTakenBack.NextDriverNotTried | kmod/drm-msm/freebsd/msm_freebsd_platform.c:265-294 | a device whose first matching driver fails is not offered to the second: for any two drivers that match it there is a run that ends with it unbound beside the second |
| Components.MatchAdd | kmod/drm-msm/freebsd/msm_freebsd_platform.c:464-489 | an error pointer stays, the first match allocates, the fifth turns the pointer into -ENOSPC, any other is appended |
| Components.ResolveNames | kmod/drm-msm/freebsd/msm_freebsd_platform.c:497-512 | the search names a component for every match exactly when each match has one in the table |
| Components.Components.BindAll | kmod/drm-msm/freebsd/msm_freebsd_platform.c:610-631 | success is open, bind, close for every match in order; failure at i is that for 0..i-1, i's group released, and then i-1..0 unbound and released in reverse |
| Components.Components.UnbindAll | kmod/drm-msm/freebsd/msm_freebsd_platform.c:633-642 | every match that has a device, last first, unbound and its group released; a match without one is skipped |
| Components.BindsPlay | kmod/drm-msm/freebsd/msm_freebsd_platform.c:610-631 | binding in order leaves exactly those matches bound, in that order, with closed groups |
| Components.UnbindsPlay | kmod/drm-msm/freebsd/msm_freebsd_platform.c:602-642 | unbinding undoes a bind_all completely: nobody bound, no group held |
| Components.FailedBindsPlay | kmod/drm-msm/freebsd/msm_freebsd_platform.c:610-631 | a failed bind_all undoes itself completely, wherever and however it failed |
| Components.DropsPlay | kmod/drm-msm/freebsd/msm_freebsd_platform.c:521-532 | release functions run only when nothing is bound |
| Components.DropsAre | kmod/drm-msm/freebsd/msm_freebsd_platform.c:521-532 | each match with a release function is released once, in order, and no other |
| Components.Components.TryBind | kmod/drm-msm/freebsd/msm_freebsd_platform.c:492-518 | binds exactly when there is an unbound master and every match has a component; bound exactly when the master's bind succeeded |
| Components.Components.MasterFree | kmod/drm-msm/freebsd/msm_freebsd_platform.c:520-532 | each match with a release function is released once, in order, and the master is forgotten |
| Components.Components.MasterAdd | kmod/drm-msm/freebsd/msm_freebsd_platform.c:534-552 | an error or busy return changes nothing; a failed bind leaves no master; success registers it, bound exactly when complete; always: bound means every match names a component in the table |
| Components.Components.MasterDel | kmod/drm-msm/freebsd/msm_freebsd_platform.c:554-563 | unbinds and forgets its own master; another one's deletion does nothing |
| Components.Components.ComponentAdd | kmod/drm-msm/freebsd/msm_freebsd_platform.c:565-582 | takes the first free slot, or -ENOSPC; an addition whose bind fails leaves the table, the master and what is bound as they were; otherwise bound exactly when it was, or is now complete |
| Components.Components.ComponentDel | kmod/drm-msm/freebsd/msm_freebsd_platform.c:584-596 | the master is unbound first, then the device leaves every slot |
| MdtImage.ReadsBack | kmod/drm-msm/freebsd/msm_freebsd_misc.c:118-132 | any file with an ELF32 header, little endian, and the program headers it counts laid out where it says is accepted, and exactly those headers are read, wherever they are and whatever else the file holds |
| MdtImage.AcceptedIff | kmod/drm-msm/freebsd/msm_freebsd_misc.c:118-132 | exactly the files laid out so are accepted |
| MdtImage.EncodedReadsBack | kmod/drm-msm/freebsd/msm_freebsd_misc.c:118-132 | so every table of program headers comes back from the file written for it, behind any gap and before anything |
| MdtLoader.FlagFields | kmod/drm-msm/freebsd/msm_freebsd_misc.c:105-116 | bits 24 to 26 of the flags being 2 mark the hash segment, bit 27 a relocatable image |
| MdtLoader.MdtSpan | kmod/drm-msm/freebsd/msm_freebsd_misc.c:134-152 | the smallest page-rounded span of the loadable segments and whether any is relocatable; empty exactly when there is none |
| MdtLoader.SpanUnique | kmod/drm-msm/freebsd/msm_freebsd_misc.c:134-152 | a table of headers has only one span |
| MdtLoader.GetSize | kmod/drm-msm/freebsd/msm_freebsd_misc.c:154-166 | -EINVAL exactly for bad headers or no loadable segment, else the span's size, which is positive |
| MdtLoader.SplitNamesDiffer | kmod/drm-msm/freebsd/msm_freebsd_misc.c:169-194 | two segments have files of their own exactly when their first two decimal digits differ: always below 100, and segment 100 reads segment 10's file |
| MdtLoader.SplitNameIs | kmod/drm-msm/freebsd/msm_freebsd_misc.c:169-194 | the file of segment n below 100 is the firmware's name with b and n in two digits for its extension |
| MdtLoader.LeadingIs | kmod/drm-msm/freebsd/msm_freebsd_misc.c:169-194 | and from 100 on its first two digits |
| MdtLoader.SegmentBytes | kmod/drm-msm/freebsd/msm_freebsd_misc.c:196-208 | a segment's bytes are those at its offset if the file reaches to its end, and otherwise its own file, of exactly its size |
| MdtLoader.SucceedsIff | kmod/drm-msm/freebsd/msm_freebsd_misc.c:262-280 | loading succeeds exactly when every loadable segment is in range, no larger in file than in memory, and readable |
| MdtLoader.LastSegmentWins | kmod/drm-msm/freebsd/msm_freebsd_misc.c:262-280 | after a successful load each byte is that of the last segment covering it, or untouched |
| MdtLoader.FirmwareImage | kmod/drm-msm/freebsd/msm_freebsd_misc.c:210-282 | over disjoint segments the region holds every segment's file bytes, zeros after them, and is unchanged elsewhere |
| MdtLoader.FailureIsAPrefix | kmod/drm-msm/freebsd/msm_freebsd_misc.c:262-280 | a failed load has loaded exactly the segments before the one that stopped it |
| MdtLoader.NothingPastTheRegion | kmod/drm-msm/freebsd/msm_freebsd_misc.c:262-280 | on success or failure nothing past the region's size changes |
| MdtLoader.RelocatableFits | kmod/drm-msm/freebsd/msm_freebsd_misc.c:154-275 | for a relocatable image the range check passes for every segment exactly when the region reaches the last one's end, so always when it is as long as qcom_mdt_get_size says |
| MdtLoader.InRangeIs | kmod/drm-msm/freebsd/msm_freebsd_misc.c:265-267 | for a region below 2^63 a segment is in range exactly if it lies in the region |
| MdtLoader.FillMeta | kmod/drm-msm/freebsd/msm_freebsd_misc.c:226-246 | the buffer for the secure monitor: the headers, then the hash segment packed or from its own place |
| MdtLoader.GoesOnIff | kmod/drm-msm/freebsd/msm_freebsd_misc.c:218-249 | the loader goes on to the segments exactly with a well-formed file, the size of whose first segment it has, whose first hash segment is at most 1 MiB and readable, with memory and once the monitor has taken both |
| MdtLoader.LoadSegments | kmod/drm-msm/freebsd/msm_freebsd_misc.c:262-280 | the in-place loop computes exactly the modelled load, with its error |
| MdtLoader.QcomMdtLoad | kmod/drm-msm/freebsd/msm_freebsd_misc.c:210-282 | a refused image changes nothing and returns the refusal's error; otherwise the base and the size told to the monitor are the span's and the region is the modelled load |
| Blur.CdBlurA8 | desktop/de/cdraw/cdraw.c:32-39 | in place, for every size, stride and radius: three rounds of vertical-after-horizontal truncated means over the edge-clamped window; no byte past column w changes, nor the scratch beyond w * h |
| Blur.ThreeRounds | desktop/de/cdraw/cdraw.c:5-39 | that is: along the rows and then along the columns, three times, each pixel the truncated mean of the 2r + 1 around it with the ends repeated, r being radius / 3 + 1; nothing for no radius |
| Blur.BoxH | desktop/de/cdraw/cdraw.c:5-17 | one horizontal pass from strided rows to packed ones equals the mean of every clamped window |
| Blur.BoxV | desktop/de/cdraw/cdraw.c:19-30 | one vertical pass from packed rows to strided ones, leaving the padding alone |
| Blur.Slide | desktop/de/cdraw/cdraw.c:11-15 | one step of the sliding sum is the next window's sum, radii wider than the image included |
| Blur.StoredMean | desktop/de/cdraw/cdraw.c:12-12 | the uint8_t cast of the running sum divided loses nothing |
| Blur.QuotientIsDiv | desktop/de/cdraw/cdraw.c:12-12 | the mean used in the specification is integer division |
| Blur.BlurA8 | desktop/de/abyss-sys/src/lib.rs:299-308 | the scratch allocated for the blur is always big enough |
| Blur.BlurMonotone | desktop/de/cdraw/cdraw.c:5-39 | a brighter image never blurs to a darker pixel |
| Blur.BlurWithin | desktop/de/cdraw/cdraw.c:5-39 | the blur never leaves the range of its input and fixes constant images |
| Blur.BlurCommutesWithMirrors | desktop/de/cdraw/cdraw.c:5-39 | blurring commutes with left-right and top-bottom mirroring |
| Blur.BlurLocal | desktop/de/cdraw/cdraw.c:32-39 | a pixel depends only on pixels at most three window radii away |
| Blur.SumFitsInt | desktop/de/cdraw/cdraw.c:6-14 | the running sum fits a 32-bit int for every image exactly up to this window radius |
| Utf8.RoundTrip | desktop/de/ctext/ctext.c:320-342 | decoding section 3 encodings of RFC 3629 gives back every sequence of scalar values |
| Utf8.ReadsEncoded | desktop/de/ctext/ctext.c:322-342 | an encoded scalar value is read exactly, wherever it stands |
| Utf8.WellFormedIff | desktop/de/ctext/ctext.c:322-342 | what is read is the scalar value encoded there exactly when the bytes match the ABNF of section 4 of RFC 3629 |
| Utf8.KeepsItsPromiseIff | desktop/de/ctext/ctext.c:320-342 | the comment's promise (the code point that stands there, else U+FFFD and one byte) is kept exactly when the lead byte announces one byte, or more than the text has, or the bytes it announces are well-formed |
| Utf8.SwallowsTheNextByte | desktop/de/ctext/ctext.c:320-342 | it is not kept after C3 28: two bytes are taken for U+00E8 |
| TextShaping.RunsSegment | desktop/de/ctext/ctext.c:414-436 | the split covers the text end to end with maximal runs, each of one face |
| TextShaping.SegmentationUnique | desktop/de/ctext/ctext.c:414-436 | there is only one such split |
| TextShaping.PickIsOpen | desktop/de/ctext/ctext.c:344-364 | the face chosen is an open one, and covers the code point whenever any face of its chain does |
| TextShaping.PickOrder | desktop/de/ctext/ctext.c:344-364 | the first face to cover the code point of the role's own, if it has one, then of the style's, then of the regular style's; if none does, the first regular face |
| TextShaping.FontTables.FaceFor | desktop/de/ctext/ctext.c:347-364 | the three lists searched in place give the first covering face of the chain, else the first regular face |
| TextShaping.FontTables.AddFaceAt | desktop/de/ctext/ctext.c:45-58 | a face already open is not opened twice; -1 exactly for an empty path, or a new face that is one too many or does not open |
| TextShaping.FontTables.StyleAdd | desktop/de/ctext/ctext.c:62-65 | appends to the style's list unless it is full or there is no face |
| TextShaping.FontTables.Init | desktop/de/ctext/ctext.c:93-184 | tried once; when it succeeds there is a regular face and every style's list is its own faces and then as many of the shared fallbacks as fit; when it fails there is no regular face |
| TextShaping.FontTables.AppendFallbacks | desktop/de/ctext/ctext.c:178-180 | one style's list with the fallbacks after it, up to the table's size |
| TextShaping.FontTables.RoleList | desktop/de/ctext/ctext.c:248-256 | a role's list: its own face first, then as much of the default chain as fits |
| TextShaping.FontTables.SetRole | desktop/de/ctext/ctext.c:237-258 | other roles are untouched; a role that was found has, for each style, its own face or its regular one first and then the default chain; otherwise it is the default chain |
| TextShaping.FontTables.ShapeRun | desktop/de/ctext/ctext.c:370-399 | a run's glyphs go after those already written, as far as the buffer goes; the count does not depend on the buffer; nothing past it is written |
| TextShaping.FontTables.ShapeRole | desktop/de/ctext/ctext.c:406-437 | the glyphs of the maximal runs, one after the other, as much as fits; -1 exactly when a run cannot be shaped; the count is independent of the buffer |
| TextShaping.AllGlyphsAt | desktop/de/ctext/ctext.c:370-437 | those are, run after run, what the shaper gives, each with its run's face |
| TextShaping.NoGlyphsIff | desktop/de/ctext/ctext.c:370-437 | and there are none exactly when some run's face is not open or its font cannot be made |
| TextShaping.FontTables.FontShapeRole | desktop/de/abyss-sys/src/lib.rs:588-607 | the retry ends in at most two calls with the full glyph sequence of the text up to its first NUL |
| AgentLoop.ChatIsTranscript | desktop/de/agent/src/lib.rs:117-175 | over any questions, resumes, replies and failures every conversation is a transcript: each assistant turn is followed by exactly its results |
| AgentLoop.TurnsAreAnswered | desktop/de/agent/src/lib.rs:149-172 | in a transcript, a turn with k calls is followed by exactly k results, in order, with the calls' ids where they have one, and by no further result |
| AgentLoop.AddedIs | desktop/de/agent/src/lib.rs:146-172 | a turn goes in as the model wrote it, and after it what the tool gave for each call, under the call's id or one made of the step and the place |
| AgentLoop.MadeIdsDiffer | desktop/de/agent/src/lib.rs:161-161 | ids made for calls without one give back their step and place, so within a question they all differ |
| AgentLoop.FailureAddsNothing | desktop/de/agent/src/lib.rs:131-145 | a failed or budget-stopped step leaves the conversation as it was sent |
| AgentLoop.StepsAreCalls | desktop/de/agent/src/lib.rs:128-175 | a question of n steps made n calls of the model, and the conversation only grew |
| AgentLoop.ResumeSendsItAgain | desktop/de/agent/src/lib.rs:122-126 | resuming after a failure or a budget stop sends the very request that failed |
| AgentLoop.Loop.Run | desktop/de/agent/src/lib.rs:128-175 | steps never exceed the maximum; the answer's text, stop, steps and calls are those of the replies in order |
| AgentLoop.Loop.Step | desktop/de/agent/src/lib.rs:131-172 | one request, one reply; the step goes on exactly when the reply was a turn with calls; otherwise the answer says what the model said, or why it said nothing |
| AgentLoop.Loop.CallTools | desktop/de/agent/src/lib.rs:157-172 | each call is run in order and its result appended |
| AgentLoop.Loop.Ask | desktop/de/agent/src/lib.rs:117-120 | the question is added once and answered; a failure or budget stop leaves the conversation that was sent |
| AgentLoop.Loop.Resume | desktop/de/agent/src/lib.rs:122-126 | the same without a new question |
| GraphemeTable.Compress | desktop/de/textmodel/gen-graphemes.py:58-65 | the emitted runs are sorted, disjoint, non-zero, maximal, and represent exactly the values |
| GraphemeTable.LookupRecovers | desktop/de/textmodel/src/grapheme.rs:30-36 | looking a code point up, with 0 as the default, gives exactly its value |
| GraphemeTable.Property | desktop/de/textmodel/src/grapheme.rs:30-36 | the binary search over the sorted table gives that lookup |
| GraphemeTable.NoShorterTable | desktop/de/textmodel/gen-graphemes.py:58-65 | no other table of runs for the same values, sorted or not, is shorter |
| Ppm.WritePpm | desktop/de/abyssgrab/src/main.rs:34-43 | the header and the colour bytes of every word |
| Ppm.LoadPpm | desktop/de/abyssgrab/src/main.rs:62-87 | the reader, byte by byte, computes the modelled load |
| Ppm.LoadsExactly | desktop/de/abyssgrab/src/main.rs:62-87 | a file is accepted exactly when it is four white-separated fields, "P6" and two sizes among them, one white byte and the raster, and those are returned |
| Ppm.RoundTrip | desktop/de/abyssgrab/src/main.rs:34-87 | reading what was written gives back the size and the exact bytes, rasters that begin with white space included; sizes of 2^64 and more are refused |
| PpmDiff.Diff | desktop/de/abyssgrab/src/main.rs:89-113 | not one size, same, the exact number of differing pixels with the smallest box around them, or a division by zero, each exactly when it applies |
| PpmDiff.CountPixels | desktop/de/abyssgrab/src/main.rs:95-106 | the loop's count and bounds, and its division by zero for a width of 0 |
| PpmDiff.BoxIs | desktop/de/abyssgrab/src/main.rs:96-106 | the bounds kept by the loop are the smallest box: all differing pixels lie in it and each side touches one |
| PpmDiff.CountIs | desktop/de/abyssgrab/src/main.rs:96-106 | the count is the number of differing pixels |
| PpmDiff.WrittenDifference | desktop/de/abyssgrab/src/main.rs:34-106 | two pictures differ, once written, in exactly the pixels whose colours differ, alpha aside |
| Nearest.FindNearest | desktop/de/cwlroots/access.c:562-574 | the loop finds the first nearest clamped point; none exactly for an empty region |
| Nearest.NearestIsNearest | desktop/de/cwlroots/access.c:558-574 | the point is one tw_constraint_contains accepts, and no point of any box from its first to its last pixel corner is nearer |
| Nearest.StaysIff | desktop/de/cwlroots/access.c:562-574 | a point is left where it is exactly when some box has it between its first and last pixel corners |
| Nearest.NearestAgain | desktop/de/cwlroots/access.c:562-574 | asking again moves nothing |
| Nearest.InsideTheLastPixel | desktop/de/cwlroots/access.c:558-574 | a point inside a last pixel is contained and would still be moved |
| Nearest.ConstrainedStaysIn | desktop/de/undertow/src/pointer_constraints.rs:114-131 | a motion goes nowhere exactly when the pointer is locked; confined to a non-empty region, wherever its surface is, the pointer is always in it and constraining again changes nothing; in an empty one it stays |
| Nearest.ConstrainedIsNearest | desktop/de/undertow/src/pointer_constraints.rs:114-131 | and no point of the region, between first and last pixel corners, is nearer to where the motion went |

## Left out

- Generated protocol tables, bindings, drawing, the command lines and the build: no algorithm of their own.
- System calls: fork, poll, read, connect and waitpid are any outcome they may have; the exact errno texts, the journal and the log lines are not modelled.
- Supervisor.Supervisor.RunLoop: what poll comes back with is an argument, one result after the other, since a loop without end has no last state; what each poll finds to read, the request, the signal and the pipe's bytes, comes with it.
- Supervisor.Supervisor.Teardown: the SIGTERM sent to every live child and the pause after it; only the waiting is modelled.
- LockStream.CutAnywhere: bytes are characters; the replacement of invalid UTF-8 in an outcome line is not modelled.
- environment_block, split_command and cursor_environment: map and string assembly that would only add easy members.
- SessionPlan.DefaultSession: component names and environment variables are enumerations; that the portal listens at portal.sock in its runtime directory is taken from what the plan waits for, since its source is not part of this model.
- RuntimePm.RuntimePm.Get: msm_fbsd_rpm_fini and a usage count beyond a C int are not modelled; callbacks do not call back into the slot whose lock is held.
- PlatformTables.Tables.ProbeAll: how deep calls nest is a parameter, for termination only; the lemmas about runs have no such bound. A node's back pointer to its device and what devres releases are not modelled.
- PlatformRuns.CalmRunsGoForward: sufficient only; `PlatformTakenBack.UnregisterUnbindsIff` is exact for the drivers and devices, and `PlatformRuns.AheadIff` with `PlatformTakenBack.TakenBackStays` for the step.
- Components.Components.MasterAdd: a match pointer that is still NULL is a caller's error, as in the C; component and master callbacks do not call back into the component functions, and the master's own bind and unbind are those of msm_drv.c reduced to their calls of component_bind_all and component_unbind_all.
- MdtImage.ReadsBack: the machine is little endian, and the file's own claim about that is not looked at, as in the C.
- MdtLoader.QcomMdtLoad: the secure monitor's answers and the files beside the firmware are parameters; unsigned 64-bit sums of two 32-bit fields cannot wrap and are plain integers.
- Blur.CdBlurA8: index arithmetic in C ints wider than 31 bits is not modelled, beyond the running sum's exact bound in `Blur.SumFitsInt`.
- TextShaping.FontTables.ShapeRole: FreeType coverage and HarfBuzz shaping are functions of face and byte range; size in pixels and glyph offsets are not modelled; at_font_init is its own call, with the paths of the environment and of its candidate lists as arguments.
- AgentLoop.Loop.Run: JSON texts, HTTP and tool bodies are abstract replies and results.
- GraphemeTable.Compress: the UCD files are not read; the values are any list.
- PpmDiff.Diff: a file is shorter than 2^64 bytes, as a vector is; that a raster has width times height pixels is not checked by the source either.
- Nearest.FindNearest: coordinates are reals, not doubles, and the cast of a floor to int does not overflow.
- Nearest.ConstrainedStaysIn: a surface whose place in the layout is unknown is not constrained at all; only a known place is modelled.
- qcom_smmu, qcom_scm, newbus and devres internals, the clock and OPP stubs, cd_noise_a8, the menus: as above, or with no specification beyond themselves.
