# Verified model of the OpenFiles Android platform layer

This project models the parts of the Android platform layer that hold real logic and proves what they
are meant to guarantee.

* **The wake-up protocol of a wait set.** A setter raises an event's flag and, still under the event's
  mutex, writes the event's handle into a small non-blocking pipe. The waiter purges the pipe, scans its
  members, sleeps in `poll`, and drains the pipe. `Protocol` is that protocol as an interleaved step
  machine: one waiter, any number of threads that set, reset, wait for and publish events, wake the set or
  delete its thread, and a pipe that drops writes when it is full. `ProtocolInvariants` holds what every
  step keeps, `ProtocolRuns` the theorems about whole runs, and `LevelWait` the proof that the protocol
  refines a level-triggered wait that has no pipe at all. That wait may time out only when nobody has
  signalled since it settled down and no member stands ready, and may come back empty-handed only after a
  wake, after more signals than the capacity, or after signals about events that are no longer told; a failed
  poll is a step of its own.
* **The same code as objects and loops.** `WaitSets` has the event, the wait set, the scan loop, the drain
  loop and the whole wait call as methods that update objects in place, each proved against the functions
  of `Scanning`. `WaitResults` says what a caller can rely on without those functions, in terms of the event
  records, the answers of the layers below and the operations that land during the sleep. `SoloWait` proves that the step machine, left to its waiter alone, computes those same
  functions and nothing else, and `WaitSets.WaitSet.DescriptorsAgree` does the same for descriptors, so the two descriptions are
  one model. `Threads` has the thread record.
* **Calendar arithmetic.** `Calendar` proves the two hand-written time conversions against a declarative
  calendar: they are inverse to each other, ordered, and agree with the closed form of section 4.16
  ("Seconds Since the Epoch") of IEEE Std 1003.1-2017, Base Definitions.
* **Interface indexing** (`Interfaces`, over `Filtering`), **socket event masks** (`SocketEvents`) and
  **relative addresses** (`RelativeAddress`).

`Members` has the handle kinds that the machine and the loops share. `dafny verify dfyconfig.toml` checks
everything.

## Conventions

* A handle is a natural number and 0 is the null handle, which is also the wake token.
* `ofc_handle_lock` counts a reference and excludes nobody, so it takes no step in the machine.
* A critical section with a single shared access is one step that needs the mutex free; `ofc_event_set_impl`
  holds its mutex over several steps. A condition wait may wake spuriously.
* What other layers answer (queue contents, timer waits, descriptors, the kernel's poll and ioctl results)
  comes in as parameters or as arbitrary environment steps.
* Two theorems mark limits of the code rather than strengths. `Calendar.DateRoundTrip` says exactly when a
  date survives 32 bits. `SoloWait.WakeCountsAfterPurge` says exactly when a wake is lost. The comment at
  `src/waitset_android.c:223` says that purged entries are picked up before the next sleep. That holds for
  events (`ProtocolRuns.StandingMemberIsReturned`) and not for wakes: one that lands between two calls or during
  a purge is thrown away and the call can sleep to its timeout, while one that lands anywhere else in the call
  rules that out. `SoloWait.LostDeleteWake` is a run from the initial state in which the wake of a delete is
  lost in this way.
* An undisturbed call in `SoloWait` is one in which the waiter moves alone, poll does not fail, and the scan's
  comparison of two timers follows their waits.

## Model

| member | source | states |
|---|---|---|
| ProtocolRuns.NoLostWakeUp | src/waitset_android.c:405-407 | In every reachable state, while a set or publication of a member event is complete and its flag is up, poll reports the pipe and can neither time out nor report a descriptor, full pipe or not |
| ProtocolRuns.PassedOverIsCovered | src/waitset_android.c:227-243 | From the test that passes a member over until the drain, a raised associated event has its token in the pipe, or the pipe is full, or some thread still owes the write |
| ProtocolInvariants.RunKeepsInv | src/event_android.c:55-90 | Pipe bound, mutual exclusion, release of blocked threads, cover of passed-over events and sanity of the waiter hold in every state of every run |
| ProtocolInvariants.StepKeepsWake | src/waitset_android.c:76-89 | Every step of every thread keeps the cover of passed-over events |
| ProtocolInvariants.StepKeepsMutex | src/event_android.c:63-72 | Every step keeps the threads inside the set routine equal to the recorded owners of the mutexes |
| ProtocolInvariants.StepKeepsBlocked | src/event_android.c:63-66 | Every step keeps each thread blocked on a raised event about to be released |
| Members.FirstDescriptorIsFirst | src/waitset_android.c:412-420 | The descriptor taken after a poll is that of the first ready polled member in queue order |
| ProtocolRuns.WaiterNeverStuck | src/event_android.c:141-156 | In every reachable state the waiter can move, or exactly the mutex that its next step needs has a holder inside the set routine that can move and comes nearer to unlocking it |
| ProtocolRuns.AttemptPreventsTimeout | src/waitset_android.c:76-94 | A write attempted after the purge and before the drain keeps that call from timing out, even when the pipe was full |
| ProtocolRuns.DeleteHandshake | src/thread_android.c:220-232 | The wake of a delete between purge and drain ends the sleep, and the delete flag is up from the wake on |
| ProtocolRuns.DeleteIsForGood | src/thread_android.c:252-266 | The delete flag is never lowered |
| ProtocolRuns.DeleteRaisesFirst | src/thread_android.c:227-229 | A delete that has come as far as its wake has already raised the flag |
| ProtocolRuns.DeleteOwesWake | src/thread_android.c:208-232 | While the wait set stays registered a delete cannot finish without attempting its wake |
| ProtocolRuns.PublicationRace | src/waitset_android.c:531-535 | Associate-test-signal against raise-look-signal: once an event is raised, associated and nobody is on the way, its token was attempted after the last raise |
| ProtocolRuns.NobodyBlockedOnRaised | src/event_android.c:129-136 | With the mutex free and the flag up no thread is blocked in the condition wait, for any number of threads |
| ProtocolRuns.BroadcastReleases | src/event_android.c:63-72 | A set releases every thread blocked at its broadcast for good, whatever resets follow |
| ProtocolRuns.ReturnedWasReady | src/waitset_android.c:237-430 | Every non-null handle returned was a member seen ready at some instant of that same call, or the timer that the scan had kept when the poll timed out |
| ProtocolRuns.TimeoutTakesLeastTimer | src/waitset_android.c:388-409 | In every run whose scan compares timers by their waits, a poll that times out takes the first timer with the least wait below the cap, and nothing if there is none |
| ProtocolRuns.DrainDelivers | src/waitset_android.c:110-138 | Over any interleaving, a drain that starts with the token of a listed event in the pipe and no wake before it ends the call with the member of that token or of an earlier one, provided the event is up whenever a token is tested |
| ProtocolRuns.TokensAreFresh | src/waitset_android.c:227-228 | Between purge and drain the pipe holds only tokens written after this call's own purge |
| ProtocolRuns.DrainWasSignalled | src/waitset_android.c:417-419 | A call that goes on to drain was signalled after its own purge, with the token that stands first |
| ProtocolRuns.StandingMemberIsFound | src/waitset_android.c:237-403 | While a member stands ready, by its event, its queue or its timer, the call never gets past it |
| ProtocolRuns.StandingMemberIsReturned | src/waitset_android.c:223-243 | A member that stands ready during purge and scan, be it by a flag, a message in its queue or an expired timer, makes the call return it or an earlier one without polling, whatever became of its tokens |
| ProtocolRuns.WaitBlocksIffDown | src/event_android.c:129-132 | An event wait goes through at once exactly when the event is up at its test, and blocks otherwise |
| ProtocolRuns.BlockedUntilReleased | src/event_android.c:130-138 | A thread that blocked is not free again before it finishes its wait, and it leaves the condition wait only after a broadcast of its event or a spurious wake-up |
| ProtocolRuns.WaitEndsByRelease | src/event_android.c:130-138 | Between the test that blocked and the end of the wait there is a broadcast of the event or a spurious wake-up |
| ProtocolRuns.WaitConsumesAuto | src/event_android.c:78-136 | Both ways out of an event wait leave an automatic event down and a manual one as it was, a reset leaves any event down, and no other event is touched |
| ProtocolRuns.SetOffersToken | src/event_android.c:63-72 | Over any interleaving, a set of an associated event does not finish without offering that event's own handle to the pipe, which takes it unless it is full |
| ProtocolRuns.PublishedForGood | src/waitset_android.c:531-533 | From its publication on an event is associated with the set |
| ProtocolRuns.ThreadNeverStuck | src/event_android.c:55-138 | In every reachable state a thread inside an operation and not in the condition wait can move, or the one mutex it needs has a holder that comes nearer to unlocking it |
| ProtocolRuns.ReturnsNeverExceedSets | src/waitset_android.c:372-378 | Over any run, returns of an automatic event plus its raised flag never exceed its sets, whoever else resets it |
| ProtocolRuns.EverySetIsDelivered | src/waitset_android.c:125-129 | With the wait set as only consumer every set is pending, being returned, or followed by a completed return, also when it lands between test and reset |
| LevelWait.StepRefines | src/waitset_android.c:96-139 | Every protocol step is silent or a step of a level-triggered wait that has no pipe: another thread's step touches one event only, a timeout needs that nobody signalled and no member stands ready, and an empty-handed end needs a wake, more signals than the capacity, or a signal with no member told |
| LevelWait.RunRefines | src/waitset_android.c:179-445 | The refinement over whole runs, with the signals counted from the end of each purge |
| LevelWait.StepKeepsHeard | src/waitset_android.c:96-139 | Every step keeps that a told event has its token in the pipe or just read, or more was signalled than the pipe holds, up to the end of the drain |
| SoloWait.SoloScan | src/waitset_android.c:237-403 | An undisturbed scan can take the first ready member, lowering an automatic event, or go on to poll with the first least timer |
| SoloWait.SoloIsDetermined | src/waitset_android.c:213-430 | Of two undisturbed ways to go on from a state the longer passes through the end of the shorter, so what can happen undisturbed is all that can |
| SoloWait.EverySoloDrain | src/waitset_android.c:110-138 | Every undisturbed drain that comes to a result comes to that of the functional search of the pipe |
| SoloWait.EverySoloCall | src/waitset_android.c:179-445 | Every undisturbed call that comes to a result comes to the first ready member, else the first ready descriptor, else the first least timer, else nothing |
| SoloWait.SoloDrain | src/waitset_android.c:110-138 | The drain can always come to that result |
| SoloWait.SoloCall | src/waitset_android.c:179-445 | The call can always come to that result |
| WaitSets.WaitSet.DescriptorsAgree | src/waitset_android.c:412-428 | The loop over the poll list finds the same descriptor as the machine when the kernel reports the ready ones |
| SoloWait.WakeCountsAfterPurge | src/waitset_android.c:223-228 | From any state with nothing else going on, the waiter can sleep to a timeout after a wake before it returns again if and only if the wake landed between two calls or during the purge |
| SoloWait.LostDeleteWake | src/thread_android.c:220-232 | A run from the initial state in which a delete's wake lands between two calls and the next call sleeps to its timeout |
| Scanning.FirstReady | src/waitset_android.c:237-243 | The scan stops at the first ready member in queue order |
| Scanning.LeastWait | src/waitset_android.c:388-399 | The poll timeout is the least of the cap and all timers' waits |
| Scanning.LeastTimerIsFirst | src/waitset_android.c:392-398 | The timer kept is the first one that attains the least wait, and null when none is below the cap |
| Scanning.GatheredPlaces | src/waitset_android.c:230-318 | Event queue and poll list hold exactly the members of their kind, in queue order |
| Scanning.DrainStopsAtFirst | src/waitset_android.c:110-136 | The drain consumes exactly the prefix up to the first wake or triggering token and leaves the rest in order |
| Members.AssocOfIsFirst | src/waitset_android.c:119-121 | The association found for a token is that of the first element that carries the event |
| Members.LookupFindsMember | src/waitset_android.c:119-130 | A token is recognised exactly when some event-like member has that event, and the handle returned is such a member's |
| WaitSets.AndroidEvent.Set | src/event_android.c:55-76 | Raises the flag and appends the event's own handle to the associated set's pipe, which stays as it was if it is full |
| WaitSets.AndroidEvent.Reset | src/event_android.c:78-90 | Lowers the flag and nothing else |
| WaitSets.TestHandle | src/event_android.c:141-156 | Reports the flag of a live event and true for a dead handle |
| WaitSets.ConsumeIfAuto | src/waitset_android.c:127-128 | Afterwards a live automatic event is down, a manual one keeps its flag, and every other record is unchanged |
| WaitSets.WaitSet.Signal | src/waitset_android.c:76-89 | With room the old tokens in order followed by the handle, without it the pipe as it was; not empty afterwards |
| WaitSets.WaitSet.Add | src/waitset_android.c:503-569 | Associates the member's event with this set, changes no other association, and writes a token exactly when something is already there |
| WaitSets.WaitSet.Purge | src/waitset_android.c:227-228 | Empties the pipe |
| WaitSets.WaitSet.PollEvent | src/waitset_android.c:96-139 | The drain loop equals the functional search, leaves the unread tokens, and lowers only the event it returns and only if automatic |
| WaitSets.WaitSet.FindElement | src/waitset_android.c:119-121 | Finds the first element that carries the event, or none, and with it the handle to return |
| WaitSets.WaitSet.Visit | src/waitset_android.c:245-402 | The switch on the handle type takes a member exactly when it is ready on sight and otherwise records it |
| WaitSets.WaitSet.Scan | src/waitset_android.c:213-403 | The scan loop takes the first ready member; everything gathered describes exactly the members passed over, arrays index-aligned with the pipe at 0 |
| WaitSets.WaitSet.Poll | src/waitset_android.c:407-407 | What the kernel's poll is taken to do: level-triggered, pipe readable exactly when it holds a token, reports within the request plus the unconditional bits |
| WaitSets.WaitSet.TakeReported | src/waitset_android.c:410-429 | The first entry with a report decides: the pipe is drained, a descriptor is returned with its report kept by its socket |
| WaitSets.WaitSet.AfterSleep | src/waitset_android.c:405-430 | A failed poll returns nothing, a token leads to the drain, a timeout to the least timer |
| WaitSets.WaitSet.PurgeAndScan | src/waitset_android.c:213-403 | Leaves an empty pipe and either the first ready member or the complete poll request |
| WaitSets.WaitSet.Sleep | src/waitset_android.c:405-430 | With the sets, resets and wakes of other threads landing during poll, the result, pipe, flags and socket reports afterwards are those of the specification |
| WaitSets.WaitSet.Wait | src/waitset_android.c:179-445 | The whole call: a member ready on sight ends it without a poll, otherwise what arrived during the sleep decides; result, pipe, all flags and all socket reports are determined, and an event that is returned as such is down if automatic and up if manual |
| WaitSets.WaitSet.ReturnedEventFlag | src/waitset_android.c:125-129 | A returned event is down if automatic and up if manual, whether scan or drain took it and whatever was set or reset during the sleep |
| WaitSets.WaitSet.ReturnedSocketReport | src/waitset_android.c:412-428 | A call that returns a socket has polled, and its record holds exactly those bits that the kernel reports of its descriptor and that were asked for or are POLLERR, POLLHUP or POLLNVAL, at least one |
| WaitSets.WaitSet.WaitOnSockets | src/waitset_android.c:179-445 | The whole call with that report in the record of the socket returned |
| WaitSets.WaitSet.WaitAndTest | src/socket_android.c:643-714 | A wait that returns a socket, followed by the socket's test, reports every enabled type whose bit the kernel reports, and besides only types that share a bit with an enabled one, CLOSE and ADDRESSCHANGE |
| WaitResults.ReadyMemberEndsCall | src/waitset_android.c:237-403 | A member whose event record is up or dead, whose queue is not empty or whose timer's wait is zero ends the call with an empty pipe and that member or an earlier ready one, whatever others do and the kernel says |
| WaitResults.NothingReadySleeps | src/waitset_android.c:405-407 | With no such member the call goes to sleep on an empty pipe |
| WaitResults.SetDuringSleepIsReturned | src/waitset_android.c:96-139 | A set of a listed event that is the first to write during the sleep, and is not reset later, makes the call return the first member that carries the event; the event is then down if automatic and up if manual |
| WaitResults.WakeEndsSleep | src/waitset_android.c:91-94 | A wake that lands first ends the sleeping call with nothing |
| WaitResults.ConditionIsReturned | src/waitset_android.c:412-428 | With nothing ready and nothing written, the first member whose descriptor has a condition that was asked for or needs no asking is returned |
| WaitResults.QuietSleepTakesTimer | src/waitset_android.c:388-409 | With no condition either, the call takes the first of the soonest timers, or nothing when none is sooner than the cap |
| WaitResults.LastOperationDecides | src/event_android.c:55-90 | Of the sets and resets of an event during the sleep the last one decides its flag |
| Threads.AndroidThread.Delete | src/thread_android.c:220-232 | Raises the flag and appends the null handle to the registered set's pipe, or leaves a full pipe as it was |
| Threads.AndroidThread.SetWaitset | src/thread_android.c:207-218 | Registers the set |
| Threads.AndroidThread.IsDeleting | src/thread_android.c:252-266 | Reports the flag |
| Threads.AndroidThread.Detach | src/thread_android.c:340-352 | Records the thread as detached |
| Calendar.MakeTime | src/time_android.c:32-67 | The loop computes the second count modulo 2^32 for every date with a month index 0 to 11; from 1970 on that count is the true one |
| Calendar.LocalTime | src/time_android.c:69-135 | The loops terminate and find the valid calendar date that names the second |
| Calendar.FindMonth | src/time_android.c:107-110 | Finds the last month that starts on or before the day |
| Calendar.SecondsRoundTrip | src/time_android.c:32-135 | Seconds to date to seconds is the identity on all 32-bit counts |
| Calendar.DateRoundTrip | src/time_android.c:202-237 | Date to seconds to date is the identity if and only if the date is not past 2106-02-07 06:28:15 |
| Calendar.SecondsOrderDates | src/time_android.c:69-135 | Valid dates are ordered lexicographically exactly as their second counts, and equal counts mean equal dates |
| Calendar.LoopCountIsPosix | src/time_android.c:45-64 | The year-by-year count equals the POSIX closed form |
| Calendar.FourHundredYears | src/time_android.c:27-30 | The same date 400 years later is valid and 146097 days later |
| Calendar.TableMatchesMonths | src/time_android.c:24-25 | The month table, corrected for leap days as the code does, equals the sums of true month lengths |
| Calendar.DayOfYearClosedForm | src/time_android.c:24-57 | The day of the year, which the code takes from its table, equals a closed form with neither table nor cases |
| Calendar.MonthsFillYear | src/time_android.c:24-30 | The twelve month lengths add up to 365 or 366 days |
| Calendar.FitsIffNotPastLast | src/time_android.c:32-33 | A valid date fits 32 bits if and only if it is not past 2106-02-07 06:28:15 |
| Interfaces.IsUsable | src/net_android.c:79-107 | An entry counts exactly when it is an IPv4 interface named wlan, eth, tun or p2p-wlan something, and its flags can be had and say up and not loopback |
| Interfaces.InterfaceCount | src/net_android.c:57-115 | The counting loop returns the length of the list of usable interfaces |
| Interfaces.InterfaceAddr | src/net_android.c:117-231 | The index loop selects exactly the index-th usable interface; any other index leaves all outputs at OFC_INADDR_NONE |
| Interfaces.InterfacePlaces | src/net_android.c:80-107 | The list holds exactly the table entries with such a family, name and flags, in table order |
| SocketEvents.SocketImpl.Enable | src/socket_android.c:716-748 | Requests exactly the bits that stand for the given types |
| SocketEvents.SocketImpl.Test | src/socket_android.c:687-714 | Reports exactly the types whose bit was returned, and CLOSE after a remote close |
| SocketEvents.EnableMeetsTest | src/socket_android.c:687-748 | The requested bits lie within a report if and only if the test then reports every enabled type, with the exact exception for a remote close |
| SocketEvents.TestAfterPoll | src/socket_android.c:643-714 | After a poll only types that share a bit with an enabled type are reported, plus CLOSE and ADDRESSCHANGE |
| RelativeAddress.LoadAddresses.DumpLibs | src/process_android.c:256-292 | Afterwards each base is that of the last library with its name |
| RelativeAddress.BaseBelow | src/process_android.c:302-335 | Characterises the greatest of the two bases strictly below the address |
| RelativeAddress.EncodesOffsetFromBaseBelow | src/process_android.c:302-335 | The encoding is the distance to that base, tagged exactly when it is the base of the smb library |
| RelativeAddress.ZeroIffNoBase | src/process_android.c:300-337 | The result is zero if and only if a base is missing, the bases coincide, or the address is not above the lower base |
| RelativeAddress.DecodableIffOffsetFits | src/process_android.c:294-339 | Subtracting the tag and adding the tagged base recovers the address if and only if the offset leaves the top bit clear, with the one exceptional layout named |
| RelativeAddress.LowAddressesDecode | src/process_android.c:310-328 | Every address below 2^63 and above the lower base is recovered, and the tag tells its library |
| RelativeAddress.LowAddressesInjective | src/process_android.c:294-339 | Distinct such addresses have distinct encodings |

## Left out

- The member list of a wait set is fixed during a run of the machine; removing a handle and dropping an
  association are done in another repository.
- Publication in the machine is that of an event; a wait queue, whose add tests the queue instead of the flag
  (src/waitset_android.c:524-529), is covered by WaitSets.WaitSet.Add only.
- For an SMB overlapped handle the scan reaches the event through its wait queue and the add reaches it
  directly; the model has one event for both.
- Freeing and failing allocations, destruction of wait sets and events, and handles that die during a run of
  the machine. WaitSets does treat dead event handles as the code does.
- Two handles for one event or socket record: WaitSets has one record for each handle, as the create functions
  make them.
- Builds without OFC_FS_ANDROID or OF_RESOLVER_FS: the model has both.
- Scanning.LeastWait: takes waits and cap as naturals; OFC_MSTIME and OFC_MAX_SCHED_WAIT are defined elsewhere.
- Fairness and time: no claim that a thread is eventually scheduled, or how long a poll lasts.
- ofc_event_wait_impl is modelled in the machine only; the code does not promise that one set frees one
  waiter or that the flag is up on return, and neither does the model.
- Calendar.LocalTime: takes any natural number where the code takes 32 bits, so it covers more.
- Calendar.MakeTime: assumes a 64-bit long for the day product. Before 1970 its year loop does not run and the
  count leaves the years out, as YearStart does. A month index outside 0 to 11 is not modelled: the DOS path
  passes mon - 1 with no range test in sight (src/time_android.c:224), and the table look-up would leave the table.
- Threads.AndroidThread.Detach: the pthread_detach call beside the change of state has no counterpart.
- ProtocolRuns.BlockedUntilReleased: allows a spurious wake-up at any time, as a condition wait does.
- LevelWait.StepRefines: puts no guard on a failed poll, which the machine allows at any time while it polls.
- Interfaces.InterfaceAddr: models the call with all three outputs asked for; a null output pointer skips its
  query and nothing else.
- The numbers behind the socket event types and poll bits: a mask is the set of its bits, so the model covers
  any values that give each its own bit.
- Searching a library's name for the two names, and the console output around it, are outside
  RelativeAddress.
- Current-time, time zone and run-time queries, DOS date packing, FILETIME conversion, sockets other than
  their event masks, DNS and Kerberos lookup, process start and signals, console, environment, locks,
  backtrace and profiling: system calls or plumbing.
