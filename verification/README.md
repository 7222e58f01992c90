# Verified model of a self-hosted backend

This project models the state machines inside a self-hosted backend (realtime, scheduler,
webhooks, auth, admin, storage, backup and command line) and proves properties of whole
runs of them. Everything outside a process (sockets, the clock, random values, the
database's success or failure, image processing, hashing) is an input of the model, so
each theorem holds for every behaviour of those.

What is proved, by component:

- **Realtime hub** (`Realtime`, `Presences`, `HubModel`, `Hubs`, `HubLaws`). Over every run of
  connects, disconnects, inbound messages and row changes, every subscriber whose sends
  never failed was last told exactly the roster the presence registry now holds. A
  change reaches a client in one frame exactly when it subscribed to the table, its role is
  an admin's or the row is its own, and it asked for the event and the value, whatever other
  sockets do. Presence references are never reused. Each inbound message means one command
  or has one complaint, and what every command sends to whom is exact.
- **Cron and scheduler** (`Calendar`, `Cron`, `CronTheorems`, `CronLaws`, `LeapCrons`,
  `LeapDays`, `Executors`, `JobTheorems`). The calendar is the proleptic Gregorian one, agrees
  with the closed form of ECMA-262, and has the weekdays of Zeller's congruence. The search returns the least matching minute strictly after
  its start. It never gives up, from any start, if and only if the parsed fields are
  dependable, a condition on the sets alone. Whatever the cron string, a job fires in a tick
  exactly when a cron instant has come since the last scheduling that stored one; that this
  holds since the last scheduling of any kind is true exactly of dependable fields and of
  those that cannot reach 29 February. Of two fires the later consumes a later instant
  exactly when a fire between them stored one. Over any sequence of ticks a job takes its
  own turns and leaves one run record for each fire.
- **pg_net drain** (`NetBridges`). Under every interleaving of inserts, notifications and
  the pieces of passes between awaits there is one pass at most. While loads succeed, no
  wake-up is lost; while deletes succeed too, each request is fetched once, and in id order
  when ids arrive in order. Whatever failed before, it is exact when a failed load leaves a
  request waiting for the next notification, and when a failed delete lets one be fetched
  twice.
- **Sessions** (`AuthModel`, `AuthTheorems`, `AuthLaws`, `AuthServices`). Over every sequential run of
  auth and admin handlers, a rotation family has one owner and at most one active token,
  the newest; a replay ends the family for good; a suspended user has no active token until
  unsuspended, whichever handler is tried. The token of a session, presented after any calls,
  opens another for its account exactly until it expires, one of its family is presented or
  the owner's sessions are revoked. A magic link and a reset token work once, for the account
  they were asked for, and a phone code opens a session exactly if it is the one drawn, in
  time, and not guessed at too often; no two accounts share a name, an address or a phone
  number.
- **Base32** (`BitStrings`, `Base32`, `Base32Laws`). The two shift-register loops, with
  32-bit wrap-around, meet the specification of section 6 of RFC 4648 stated on bit strings,
  which is that of the same number written in the bases 256 and 32; decoding inverts encoding.
- **Rate limiters** (`SlidingLimiters`, `FixedLimiters`). A call is allowed exactly when
  fewer than its limit of the key's allowed calls came in the last 60 seconds; the pruned list
  decides as the full history would. The fixed window admits at most 2 * max - 1 calls of a key in any
  interval of one window's length; more than max are possible exactly when the limit is more
  than one call and the window longer than a millisecond.
- **Backups** (`BackupNames`, `Retention`, `BackupServers`, `BackupLaws`). For all times that a date can
  hold, file names sort as time does in exactly the years stated. Retention leaves the newest
  dump files of all there ever were, complete or not, and never separates a kept dump from
  its archive, whatever fails and however the clock moves. When a complete dump is among
  them, and when all of the newest complete ones are, is exact. The mirror directory can
  separate dump and archive, and when it will is read off the directory's own listing.
- **Environment files** (`EnvFiles`, `EnvTheorems`, `EnvLaws`). Filling a template and parsing the
  result is an exact map update for clean entries, and a map of entries survives every
  template if and only if all of them are clean.
- **Object paths and transform cache** (`ObjectPaths`, `PathLaws`, `Transforms`,
  `TransformLaws`, `TransformCache`, `StorageLaws`). An
  accepted path stays below its directory; a validated one resolves to exactly its
  segments; objects and cache files never collide. Over a set of uploads, the cached service
  answers every download of every run as a service without a cache would if and only if
  contents of one object with one fingerprint give the same variants.
- **Migrations** (`Migrations`, `MigrationLaws`). An invocation commits exactly the files to
  do before the first one with a fault. Over every sequence of invocations with failures anywhere,
  the committed migrations are a prefix of the files in name order, and the next plan is
  exactly the rest.

`Seqs`, `JsMaps`, `Text`, `NumberLaws`, `Sorting` and `Arithmetic` hold the JavaScript
operations and the facts about them that the models share. A module named for laws states
what the operations of a component do in terms of its inputs alone, with the constants
written out, apart from the functions that the other modules are built from. Code that updates state is a class or a method
whose contract ties the new state to a function of the old one; the theorems are about that
function. `dafny verify dfyconfig.toml` checks the whole project.

## Findings

Where the code does not do what its comments suggest, or has a limit worth knowing:

- The cron search is limited to five 366-day years, called generous for any sane
  specification (`scheduler/src/cron.ts:110-112`). A job for midnight of 29 February, due on
  29 February 2096, finds no next instant for 1091 days: until 24 February 2099 it is left
  due and runs in every tick although no instant comes (`JobTheorems.LeapDayJobFiresEveryTick`).
  From then on it is scheduled for 29 February 2104 (`JobTheorems.LeapDayJobRecovers`). Which
  cron fields are affected is exact (`JobTheorems.FiresExactlyWhenElapsed`).
- A fixed window of `max` admits up to `2 * max - 1` calls within one window's length
  (`FixedLimiters.BoundIsReached`), and never more than `max` exactly when `max` or the
  window in milliseconds is one (`FixedLimiters.ExceedsMaxExactly`).
- A mirror that takes an archive without its dump can later delete the archive of a dump
  that it keeps (`Retention.MirrorCanSeparate`). In a mirror whose unlinks have all succeeded,
  later complete copies will do so to a kept dump with its archive if and only if the mirror
  lists more newer archives than newer dumps (`Retention.MirrorSeparatesExactlyIf`).
- A failed run can leave part of a dump under the dump's name, and retention takes it for a
  dump (`backup/src/backup.ts:42-45`). So failed runs can push complete dumps out of the
  directory (`Retention.FailedRunsPushOut`); a complete dump stays if and only if fewer than
  the number to keep are newer, complete or not (`Retention.CompleteDumpStaysExactlyIf`).
- Dump names are called chronological because they are ISO times
  (`backup/src/backup.ts:52-57`). Of two times the earlier has the earlier name exactly if
  both years lie in 0 to 9999, or the earlier year is beyond 9999, or the earlier year is
  below zero and the later is the same or lies in 0 to 9999 (`BackupNames.DumpNamesInOrder`).
- `fillEnv` writes values as they are, so a value with outer white space, outer quotes or a
  line break is not read back (`EnvTheorems.SurvivesExactlyIfClean`).
- An object path whose first segment begins with two dots, such as `..a`, is validated but
  refused by the store (`ObjectPaths.ObjectResolves`).
- A re-upload of the same size in the same millisecond is answered with the old variant, if
  the old content had one and the new content's differs (`TransformCache.FreshAfterReplacement`).
- A pass of the pg_net bridge whose load fails ends without another unless one was asked for
  meanwhile (`webhooks/src/netBridge.ts:36-41`); the requests it was to see to then wait for
  the next notification, against the promise at `webhooks/src/netBridge.ts:6-8`
  (`NetBridges.FailedLoadLosesWakeUpExactly`, `NetBridges.WakeUpIsLost`).
- A request whose row cannot be deleted is performed again by the next pass
  (`NetBridges.FailedDeleteRepeatsExactly`).
- That a forgotten password is answered alike for known and unknown accounts is limited to
  deliveries that do not return the token, as the comment at `auth/src/handlers.ts:386-391`
  says itself (`AuthTheorems.ForgotAnswersAlikeExactly`).

## Model

| member | source | states |
|---|---|---|
| Realtime.OwnerValueIsFirst | realtime/src/hub.ts:155-164 | the owner is the value of the first configured column the row has; none is found only if the row has none of them |
| Realtime.RecipientsAreGated | realtime/src/hub.ts:138-183 | the recipients are exactly the candidates that pass the owner gate: admins, everyone when there is no row or no owner column, else the owner; truncated changes are for admins alone; HubLaws.OwnerGate spells the gate out |
| Realtime.ValuesEqualIsEquivalence | realtime/src/hub.ts:618-631 | filter equality, which ignores the difference of numbers and their text, is an equivalence |
| Realtime.DecodeEncode | realtime/src/hub.ts:350-511 | every command a client can express is recovered from its message, with the event defaulting to all |
| Presences.LeaveRoomEffect | realtime/src/hub.ts:265-271 | leaving one channel removes that entry alone and drops the channel exactly when it becomes empty |
| Presences.LeaveRoomsEffect | realtime/src/hub.ts:277-287 | leaving many channels removes the connection from those and keeps every other entry |
| Presences.TrackEffect | realtime/src/hub.ts:250-259 | tracking sets one entry, keeps all others, and changes no other channel's roster |
| Presences.TrackValid | realtime/src/hub.ts:229-300 | tracking keeps references distinct, issued and on every entry, and keeps no empty channel |
| Presences.UntrackEffect | realtime/src/hub.ts:265-271 | untracking removes exactly that entry, keeps the registry valid and leaves other rosters alone |
| Presences.RemoveEffect | realtime/src/hub.ts:277-287 | removing a connection takes it off exactly the channels it was on and forgets its reference |
| Presences.PresenceRegistry.constructor | realtime/src/hub.ts:229-234 | a new registry is empty and valid, and numbers references from one |
| Presences.PresenceRegistry.RefFor | realtime/src/hub.ts:237-244 | a connection keeps its reference once it has one; a new one is the next number |
| Presences.PresenceRegistry.Track | realtime/src/hub.ts:250-259 | the nested-map update is the registry's tracking step, and returns the entry |
| Presences.PresenceRegistry.Untrack | realtime/src/hub.ts:265-271 | the update is the untracking step, and reports whether there was an entry |
| Presences.PresenceRegistry.RemoveConnection | realtime/src/hub.ts:277-287 | the loop that deletes from the map it walks removes the connection everywhere and lists the channels it was on in order |
| HubModel.StepInvariant | realtime/src/hub.ts:302-589 | every hub event keeps the invariant: subscribers informed, presences owned and carrying their owner's sub, registry valid |
| HubModel.RunsKeepSubscribersInformed | realtime/src/hub.ts:229-538 | in every run the last roster each live subscriber received for a channel is the current roster |
| HubModel.ReferencesAreNeverReused | realtime/src/hub.ts:232-244 | one reference never names two connections, at one moment or at two moments of a run |
| HubModel.AnnounceInforms | realtime/src/hub.ts:527-538 | an announcement makes the current roster the last one known by exactly the live subscribers of that channel |
| HubModel.DispatchIsExact | realtime/src/hub.ts:552-589 | a connection receives one change frame exactly when it is registered, passes all four gates and its own socket works; nothing else changes; HubLaws.HearsRule spells the gates out |
| HubModel.RelayIsExact | realtime/src/hub.ts:456-483 | a broadcast reaches each live subscriber once, and the sender only if so configured |
| Hubs.Hub.constructor | realtime/src/hub.ts:303-314 | a new hub is empty, and an empty list of owner columns means the default one |
| Hubs.Hub.Add | realtime/src/hub.ts:322-326 | adding is the connect step; a known connection keeps its claims and subscriptions |
| Hubs.Hub.Remove | realtime/src/hub.ts:329-336 | removing is the disconnect step, leaves announced on every channel it was on |
| Hubs.Hub.HandleMessage | realtime/src/hub.ts:350-394 | an inbound frame is the inbound step, ignored for unknown connections |
| Hubs.Hub.HandleSubscribe | realtime/src/hub.ts:396-434 | subscribing replaces the channel's subscription, acknowledges it and sends the current roster |
| Hubs.Hub.HandleUnsubscribe | realtime/src/hub.ts:436-448 | unsubscribing acknowledges first, then leaves presence and announces it |
| Hubs.Hub.HandleBroadcast | realtime/src/hub.ts:456-483 | the relay goes to the channel's subscribers, without the sender unless configured |
| Hubs.Hub.HandleTrack | realtime/src/hub.ts:486-499 | tracking announces the new roster as a join |
| Hubs.Hub.LeavePresence | realtime/src/hub.ts:502-511 | a leave is announced only if there was an entry |
| Hubs.Hub.ChannelSubscribers | realtime/src/hub.ts:514-520 | the loop finds exactly the channel's subscribers, in order |
| Hubs.Hub.AnnouncePresence | realtime/src/hub.ts:527-538 | the full roster goes to every subscriber of the channel |
| Hubs.Hub.Dispatch | realtime/src/hub.ts:552-589 | gathering candidates, gating them and matching them is the dispatch step, whose effect HubLaws.ChangeReachesExactly gives |
| Hubs.ChosenAreReceiving | realtime/src/hub.ts:563-588 | the owner gate first and the event and filter after select exactly the clients that pass all gates together |
| HubLaws.ChangeReachesExactly | realtime/src/hub.ts:552-589 | in every state a change reaches a connection in exactly one frame, as it was notified, if the connection's socket works, it is subscribed to the table, may see the row, and asked for the event and the value; and in none otherwise |
| HubLaws.OwnedChangeReachesOwner | realtime/src/hub.ts:138-183 | a change whose first owner column present holds a string, or a number written like it, reaches subscribers that asked for it exactly if their role is service or laetoli_admin or their sub is that string |
| HubLaws.UnownedChangeReachesAdmins | realtime/src/hub.ts:138-183 | a change that is truncated, or whose first owner column present holds no string or number, reaches those two roles only |
| HubLaws.OwnerGate | realtime/src/hub.ts:138-183 | the gate on roles and rows, spelled out on the two admin roles and the values of the owner columns |
| HubLaws.FilterRule | realtime/src/hub.ts:585-631 | a filter holds of a change exactly if the row has the column with the same value or the same text |
| HubLaws.CommandIsRead | realtime/src/hub.ts:350-511 | a message is read as a command if and only if its type, channel, event, filter, state and payload say so |
| HubLaws.RefusalIsExact | realtime/src/hub.ts:350-483 | which messages are refused, each with its complaint; all others are commands |
| HubLaws.RefusedTells | realtime/src/hub.ts:350-394 | a refused message is answered to its sender alone and changes nothing; a stranger's is ignored |
| HubLaws.ConnectRegisters | realtime/src/hub.ts:322-326 | a new connection has its claims and no subscription, and a known one stays as it is |
| HubLaws.DisconnectTells | realtime/src/hub.ts:329-336 | a connection that goes is registered and present nowhere, and each other subscriber is told of the leave once for each channel it was on |
| HubLaws.SubscribeKeepsWhatWasAsked | realtime/src/hub.ts:396-434 | the subscription kept has the channel, event and filter of the message, and every other is as it was; only the sender is answered, with an acknowledgement and then the roster |
| HubLaws.UnsubscribeDrops | realtime/src/hub.ts:436-448 | that subscription alone is dropped and acknowledged, and the other subscribers are told of the leave if there was an entry |
| HubLaws.UnsubscribedHearsNothing | realtime/src/hub.ts:552-589 | in every run a connection without a subscription to a table receives no change of it until it subscribes |
| HubLaws.BroadcastReaches | realtime/src/hub.ts:456-483 | a broadcast reaches each live subscriber once with its name, payload and sender, and the sender only if so configured |
| HubLaws.TrackTells | realtime/src/hub.ts:486-499 | tracking puts the sender's sub and state on the roster and shows it to every live subscriber as a join |
| HubLaws.UntrackTells | realtime/src/hub.ts:502-511 | untracking takes the entry off and shows the roster as a leave, if there was one |
| HubLaws.RosterAfterTrack | realtime/src/hub.ts:250-259 | a newcomer is the last entry of the roster; a new state takes the place of the old one |
| HubLaws.RosterAfterLeave | realtime/src/hub.ts:265-271 | who leaves is taken out of the roster and the others keep their order |
| Calendar.DateOfDayOf | scheduler/src/cron.ts:114-130 | every valid date is the date of its day number |
| Calendar.DayOfDateOf | scheduler/src/cron.ts:114-130 | every day number is that of its date |
| Calendar.EarlierDateIsEarlierDay | scheduler/src/cron.ts:114-130 | dates are ordered as day numbers are |
| Calendar.DayFromYearFormula | scheduler/src/cron.ts:114-130 | years counted one at a time agree with the closed form of ECMA-262 for every year |
| Cron.ParseField | scheduler/src/cron.ts:33-74 | the nested loops compute the union of the parts' values, or fail when any part is bad |
| Cron.AddSegment | scheduler/src/cron.ts:64-71 | one stepped range yields exactly the values reached, Sunday written 7 as 0, and fails on one out of range |
| Cron.UnionExists | scheduler/src/cron.ts:36-38 | a field parses if and only if each of its parts does |
| Cron.UnionHas | scheduler/src/cron.ts:36-73 | a field's values are exactly those of its parts |
| Cron.ReachesIsMultiple | scheduler/src/cron.ts:64 | the values the loop reaches are those at whole steps from the start |
| Cron.ParseCron | scheduler/src/cron.ts:77-94 | an expression parses exactly when it has five fields that parse |
| Cron.ParsedIsValid | scheduler/src/cron.ts:25-94 | parsed sets lie in their ranges, and an unrestricted day field holds every value |
| Cron.NextRun | scheduler/src/cron.ts:104-127 | the minute-by-minute search returns the first match in its window, or none; CronLaws.NextIsFirstDue says so in terms of dates |
| Cron.Search | scheduler/src/cron.ts:113-126 | the loop over the moving instant finds the least matching minute within the limit |
| CronLaws.DayIsCivil | scheduler/src/cron.ts:114-130 | the day number of every date is that of the closed formula over year, month and day |
| CronLaws.WeekdayIsZeller | scheduler/src/cron.ts:131 | the weekday of every date is the one that Zeller's congruence gives |
| CronLaws.WeekdaysFollow | scheduler/src/cron.ts:131 | 1 January 1970 is a Thursday, and each day is followed by the next weekday |
| CronLaws.InstantIsDue | scheduler/src/cron.ts:113-139 | a minute of a date matches exactly if its month, hour and minute are in the fields and its day is: by day of month or weekday when both are restricted, by the restricted one when one is, and always when none is |
| CronLaws.DueTimeIsInstant | scheduler/src/cron.ts:113-139 | the instants are exactly the times of such dates and minutes |
| CronLaws.NextIsFirstDue | scheduler/src/cron.ts:104-127 | the search finds the first due time after its start, or there is none in five years of 366 days |
| CronLaws.RangeField | scheduler/src/cron.ts:51-71 | `a-b` is every number from a to b, and refused if one is out of range |
| CronLaws.RangeStepField | scheduler/src/cron.ts:40-71 | `a-b/n` is every n-th of them |
| CronLaws.StarStepField | scheduler/src/cron.ts:40-71 | a star with a step is every n-th value from the field's least |
| CronLaws.SingleField | scheduler/src/cron.ts:56-71 | one number is that value, 7 being Sunday in the last field |
| CronLaws.ListField | scheduler/src/cron.ts:36-38 | a comma joins the values of both sides |
| CronLaws.CronByFields | scheduler/src/cron.ts:77-94 | an expression of five words is read field by field in the order minute, hour, day, month, weekday; any other number of words is refused |
| NumberLaws.IntIsRead | scheduler/src/cron.ts:43-57 | a string of white space, a sign or none, digits and then no digit is read as the number of those digits |
| NumberLaws.OnlyTheseAreRead | scheduler/src/cron.ts:43-60 | no other string is read as a number |
| CronTheorems.NextIsLeast | scheduler/src/cron.ts:96-127 | the result is a cron instant after the start with none between; no result means no match in the window |
| CronTheorems.NextIsStable | scheduler/src/cron.ts:104-127 | every start from the first up to the result finds the same instant |
| CronTheorems.NextIsMonotone | scheduler/src/cron.ts:104-127 | a later start never finds an earlier instant |
| CronTheorems.DependableFinds | scheduler/src/cron.ts:104-138 | with dependable fields the search succeeds from every start |
| CronTheorems.UndependableMisses | scheduler/src/cron.ts:104-138 | without, it fails from 1 March of every dry year |
| CronTheorems.NextNeverFailsIffDependable | scheduler/src/cron.ts:104-138 | the search never fails, from any start, if and only if the fields are dependable |
| CronTheorems.LeapDayOnlyRunsDry | scheduler/src/cron.ts:110-126 | a leap-day cron has later instants, yet the search gives up from 1 March of a dry year |
| Executors.ComputeNextRun | scheduler/src/core.ts:65-67 | parsing and searching is the next instant of the cron string, or nothing |
| Executors.Executor.ScheduleNext | scheduler/src/executor.ts:94-102 | the next instant is stored; a bad cron or a failed write leaves the job as it was |
| Executors.TicksGiveTurns | scheduler/src/executor.ts:61-141 | over any ticks a job goes through exactly its own turns, and the run log holds one record of it, with the outcome, for each turn in which it fired |
| Executors.Executor.MaybeRun | scheduler/src/executor.ts:80-91 | a job without a next run is scheduled, a due one runs and is rescheduled, any other waits |
| Executors.Executor.Tick | scheduler/src/executor.ts:61-77 | a tick gives each listed job its turn at one clock reading, and records exactly the due ones |
| Executors.ListedTakesItsTurn | scheduler/src/executor.ts:70-76 | a job's outcome in a tick does not depend on the other jobs |
| Executors.UnlistedWaits | scheduler/src/executor.ts:64-76 | a tick leaves unlisted jobs alone |
| Executors.TurnRefines | scheduler/src/executor.ts:80-102 | a turn on the stored next run refines the specification that only remembers when it last stored an instant, for any search that finds least instants where it finds any |
| Executors.RunRefines | scheduler/src/executor.ts:61-102 | so does every sequence of turns from registration |
| JobTheorems.FiresExactlySinceStored | scheduler/src/executor.ts:61-102 | for every cron string, a job fires in a turn if and only if a cron instant lies after the last scheduling that stored one and not after now |
| JobTheorems.FiresExactlyWhenElapsed | scheduler/src/executor.ts:80-102 | for a cron string that parses, firing in every turn of every run is having an instant since the last scheduling, found or not, if and only if the fields are dependable or cannot reach 29 February |
| LeapCrons.LeapCronParses | scheduler/src/cron.ts:77-94 | the string for midnight of 29 February parses to exactly that |
| LeapDays.LeapSearch | scheduler/src/cron.ts:104-127 | from a dry year's leap day to the next, the search finds nothing for exactly the first 1091 days and then the next leap day |
| Executors.NextRunGrows | scheduler/src/executor.ts:93-102 | the stored next run never decreases, and grows between two turns if and only if the job fired and stored an instant in one of them, for any search that finds least instants where it finds any |
| JobTheorems.FiresConsumeInstants | scheduler/src/executor.ts:85-90 | for every cron string, of two fires the later consumes a strictly later next run if and only if a fire from the first on, before the second, found an instant and stored it |
| JobTheorems.LeapDayJobFiresEveryTick | scheduler/src/executor.ts:85-101 | a leap-day job due in a dry year stays due for 1091 days and fires in every turn of them, with no instant after the first |
| JobTheorems.LeapDayJobRecovers | scheduler/src/executor.ts:88-101 | a turn in those days reschedules nothing, and one after them the next leap day |
| NetBridges.NetBridge.constructor | webhooks/src/netBridge.ts:20-24 | a new bridge is idle |
| NetBridges.NetBridge.Receive | webhooks/src/netQueue.ts:49-56 | a request is queued at its place by id |
| NetBridges.NetBridge.Drain | webhooks/src/netBridge.ts:28-33 | a call starts a pass, or while one is active asks for another |
| NetBridges.NetBridge.Finish | webhooks/src/netBridge.ts:45-51 | the end of a pass clears the flag and starts the pass that was asked for |
| NetBridges.NetBridge.Continue | webhooks/src/netBridge.ts:35-86 | a pass runs to its next await: the store reads the queue, its answer arrives, then fetching and completing in snapshot order, or ending; a load may fail before or after the read, and a completion may fail to record the response, to delete the row, or both |
| NetBridges.RunOnePass | webhooks/src/netBridge.ts:20-52 | one pass at most is active, and a further pass is wanted only while one is, whatever fails |
| NetBridges.StepNoneLost | webhooks/src/netBridge.ts:28-52 | while loads succeed, what arrived by the last call is fetched, in the snapshot, or awaited by a pass to come |
| NetBridges.StepOnce | webhooks/src/netQueue.ts:57-76 | while deletes succeed, responses recorded or not, requests are fetched at most once, leave the queue after that, and are queued until then |
| NetBridges.StepInIdOrder | webhooks/src/netBridge.ts:42-44 | ids that arrive in order are fetched in order |
| NetBridges.RunSound | webhooks/src/netBridge.ts:20-87 | all of these hold along every interleaving over a store that succeeds |
| NetBridges.NoWakeUpIsLost | webhooks/src/netBridge.ts:26-52 | whenever no pass is active, every request that had arrived by the last drain call has been fetched and has left the queue, answered if responses are recorded |
| NetBridges.FailedLoadLosesWakeUpExactly | webhooks/src/netBridge.ts:36-51 | in every reachable state, whatever failed before: after a failed load, a request that the last drain call was to see to stays unfetched in every run up to the next call if and only if no further pass was asked for and it is still to be fetched |
| NetBridges.WakeUpIsLost | webhooks/src/netBridge.ts:36-51 | such a run: a request arrives, is notified of, its load fails, and nothing fetches it before the next notification |
| NetBridges.FailedDeleteRepeatsExactly | webhooks/src/netQueue.ts:57-76 | in every reachable state, a request whose completion ends can be fetched again if and only if its delete failed, and without another drain call if and only if a further pass was asked for besides |
| NetBridges.RunTidy | webhooks/src/netBridge.ts:20-87 | whatever fails, unfetched requests are queued, and what a pass holds is in id order, without repeats, and still queued |
| NetBridges.IdleUntilDrain | webhooks/src/netBridge.ts:28-33 | with no pass active nothing is fetched or leaves the queue until the next drain call |
| NetBridges.FailedCompletionsLoseNothing | webhooks/src/netBridge.ts:80-84 | with completions failing at will, every such request has still been fetched |
| NetBridges.SettlesCompleted | webhooks/src/netBridge.ts:45-51 | left alone, the active passes end after finitely many steps with every such request completed |
| NetBridges.CompletionIsExact | webhooks/src/netQueue.ts:57-76 | in every reachable state, a request whose completion ends has left the queue exactly if the delete succeeded and has its response exactly if the insert did |
| AuthTheorems.HandleTokenStep | auth/src/handlers.ts:132-167 | every handler only revokes tokens, or adds one active token: first of a new family, or after revoking its predecessor |
| AuthTheorems.HandleUsers | admin/src/handlers.ts:308-333 | accounts stay, and only the suspend handler changes who is suspended |
| AuthTheorems.HandleLockedOut | auth/src/handlers.ts:228-260 | no handler leaves a suspended user with an active token |
| AuthTheorems.HandleSound | auth/src/handlers.ts:304-383 | every handler keeps families chained with one owner, token values unique and suspended users locked out |
| AuthTheorems.RunSound | auth/src/handlers.ts:304-383 | so does every sequential run of handlers of both services |
| AuthTheorems.RunGrows | auth/src/db.ts:361-383 | along every run rows stay, and no revocation is undone |
| AuthTheorems.DeadStaysDead | auth/src/handlers.ts:304-365 | a family without an active token never gains one |
| AuthTheorems.ReplayKillsFamily | auth/src/handlers.ts:314-322 | presenting a revoked token fails and leaves its family without an active token for good |
| AuthTheorems.RefreshRotates | auth/src/handlers.ts:304-365 | a refresh succeeds exactly for an active, unexpired token; that token alone is revoked, and the one returned is added to its family and owner |
| AuthTheorems.SuspensionLocksOut | admin/src/handlers.ts:308-333 | after a suspension no sequence of handlers but an unsuspension gives the user an active token |
| AuthTheorems.LinkSignsInOnce | auth/src/handlers.ts:576-620 | in every reachable state a magic link opens one session at most |
| AuthTheorems.GuessesStayBounded | auth/src/handlers.ts:1112-1146 | no code is tested against more wrong guesses than allowed |
| AuthServices.AuthService.Serve | auth/src/handlers.ts:179-1146 | any request served, by its handler and its updates of the tables, is the model's step, and keeps the state sound |
| AuthLaws.CodeSignsInExactly | auth/src/handlers.ts:1060-1146 | in every reachable state, a code that was asked for, verified after any calls that neither ask for another for the phone nor present it, opens a session of the one account with that phone if and only if it is the code drawn, has not expired, fewer tries than the limit were made and the account is not suspended |
| AuthLaws.CodeIsChecked | auth/src/handlers.ts:1112-1146 | within the limit and the time, a wrong code adds one try and changes nothing else, and the right one is used up |
| AuthLaws.StaysPending | auth/src/handlers.ts:1112-1146 | a code stays pending through every other call, with one more try for each wrong guess |
| AuthLaws.CodeRequestIsExact | auth/src/handlers.ts:1060-1110 | asking for a code makes an account for a phone that has none, adds the code and touches nothing else; the answer shows it only if so configured |
| AuthLaws.LinkSignsInExactly | auth/src/handlers.ts:532-620 | in every reachable state, a link that was asked for opens, after any calls, a session of the one account with that address if and only if it was not presented before, has not expired and the account is not suspended |
| AuthLaws.LinkRequestIsExact | auth/src/handlers.ts:532-574 | asking for a link makes an account for an address that has none, adds the link and touches nothing else; the answer shows it only if so configured |
| AuthLaws.ResetTakesEffectExactly | auth/src/handlers.ts:392-453 | in every reachable state, a reset that was asked for sets, after any calls, the password of the account that was meant and ends its sessions if it was not presented before and has not expired, and changes nothing otherwise |
| AuthLaws.ResetIsMade | auth/src/handlers.ts:392-423 | the account meant is the one with the user name given, or else the one with the address; without either nothing happens |
| AuthLaws.SignupIsExact | auth/src/handlers.ts:179-226 | a sign-up opens a session of a new account with the names given, or changes nothing if one is taken |
| AuthLaws.SignupThenLogin | auth/src/handlers.ts:179-260 | after any calls that reset no password, the new account is signed in to with its own password and no other |
| AuthLaws.NewIdentityIsExact | auth/src/handlers.ts:830-916 | an identity seen for the first time gets an account of its own, unless its address is taken |
| AuthLaws.SuspendIsExact | admin/src/handlers.ts:308-333 | a suspension marks that account and ends its sessions, and no other's; lifting it ends none |
| AuthLaws.LogoutIsExact | auth/src/handlers.ts:372-383 | a logout ends exactly the sessions of the token's family |
| AuthTheorems.IssuedTokenWorks | auth/src/handlers.ts:152-167 | in every reachable state, the token of a session just opened, presented after any calls, opens a session for its account exactly if it has not expired and none of the calls ended it, and is invalid otherwise |
| AuthTheorems.ActiveUntilEnded | auth/src/handlers.ts:304-383 | along every run an active token is revoked exactly by a request that presents a known token of its family, or a reset, suspension or revocation of its owner |
| AuthTheorems.SessionIsIssued | auth/src/handlers.ts:132-167 | whichever request opens a session adds a new active token of that account |
| AuthTheorems.RunAccountsUnique | auth/src/handlers.ts:179-226 | in every reachable state no two accounts share a user name, an address or a phone number |
| AuthTheorems.PasswordSignsIn | auth/src/handlers.ts:228-260 | in every reachable state a user name with its account's password, and with no other, opens a session of that account unless suspended |
| AuthTheorems.ResetWorksOnce | auth/src/handlers.ts:429-453 | in every reachable state a successful reset sets the password of its token's account, ends that account's sessions and no other's, and its token never works again |
| AuthTheorems.GoogleReturnsToAccount | auth/src/handlers.ts:830-916 | an identity that opened a session opens, after any calls, sessions of that account only, unless it is suspended |
| AuthServices.AuthService.RevokeMatching | auth/src/db.ts:361-383 | the update revokes exactly the matching rows |
| AuthTheorems.ForgotAnswersAlikeExactly | auth/src/handlers.ts:385-423 | the answer tells nothing about accounts if and only if the token is not shown |
| Base32.Encode | auth/src/totp.ts:36-52 | the output spells the input's bits, padded with zeros to whole groups of five |
| Base32.Decode | auth/src/totp.ts:55-71 | the output is the whole bytes among the bits of the cleaned input |
| Base32.ShiftInBits | auth/src/totp.ts:41-63 | wrapping at 32 bits loses no pending bit |
| Base32.EncodingIsUnique | auth/src/totp.ts:35-52 | a byte string has one encoding, of ceil(8n/5) symbols |
| Base32.DecodeInvertsEncode | auth/src/totp.ts:36-71 | decoding an encoding gives the bytes back |
| Base32.DecodingIsUnique | auth/src/totp.ts:55-71 | a string decodes to one byte string |
| Base32.FillerIsIgnored | auth/src/totp.ts:54-56 | padding, white space and any other ASCII character that is no symbol, inserted anywhere, change nothing in the decoded bytes |
| Base32.CaseIsIgnored | auth/src/totp.ts:54-56 | strings that differ in the case of ASCII letters decode to the same bytes |
| Base32.RoundTrip | auth/src/totp.ts:36-71 | any input that cleans to an encoding decodes to the original bytes |
| Base32.EncodeThenDecode | auth/src/totp.ts:36-71 | one after the other, encode and decode return every byte string |
| Base32Laws.EncodingIsNumber | auth/src/totp.ts:36-52 | a string encodes some bytes if and only if its symbols, in the order of RFC 4648, are the base-32 digits of the bytes' base-256 number shifted to fill the last symbol, and no more than needed |
| Base32Laws.DecodingIsNumber | auth/src/totp.ts:55-71 | a string decodes to some bytes if and only if they are the base-256 digits of its number without the bits that fill no byte |
| Base32Laws.SymbolIsIndexed | auth/src/totp.ts:28 | each symbol of the alphabet written out has its place as its value |
| SlidingLimiters.SlidingLimiter.Allow | storage/src/apikeyGuard.ts:91-102 | the answers given are right: a call is allowed if and only if fewer than its limit of the key's earlier allowed calls came in the last 60000 milliseconds, counted over the whole history; the stored times are those of the last minute |
| SlidingLimiters.AllowIsExact | storage/src/apikeyGuard.ts:94-101 | deciding and storing on the pruned list agrees with the unpruned history |
| SlidingLimiters.AcceptedAreAllowed | storage/src/apikeyGuard.ts:94-101 | the recent accepts that decide are as many as the key's allowed calls of the last minute |
| SlidingLimiters.NextAnswer | storage/src/apikeyGuard.ts:94-101 | deciding by the recent accepts gives the right next answer |
| SlidingLimiters.QuietKeyIsAllowed | storage/src/apikeyGuard.ts:91-102 | a key with no allowed call in the last minute and a limit of at least one is allowed, whatever came before |
| SlidingLimiters.EveryMinuteIsLimited | storage/src/apikeyGuard.ts:84-103 | with a constant limit no half-open minute holds more accepts than the limit |
| FixedLimiters.FixedLimiter.CheckKey | auth/src/ratelimit.ts:18-29 | the answers given are right: a call opens a window unless it falls in the last one its key opened, and is accepted if it opens one or fewer than max calls since then were |
| FixedLimiters.NextAnswer | auth/src/ratelimit.ts:18-29 | deciding by the stored entry gives the right next answer over the whole history |
| FixedLimiters.TallyFollows | auth/src/ratelimit.ts:18-29 | counting accepts along a history follows the limiter's own entries |
| FixedLimiters.EveryIntervalIsBounded | auth/src/ratelimit.ts:9-32 | no half-open interval of one window's length holds more than 2 * max - 1 accepts of a key |
| FixedLimiters.BoundIsReached | auth/src/ratelimit.ts:9-32 | for every maximum of at least one and window of at least two milliseconds there is a history with exactly that many |
| FixedLimiters.ExceedsMaxExactly | auth/src/ratelimit.ts:9-32 | every interval of every ordered history keeps to max if and only if max is one or the window one millisecond |
| BackupNames.DumpNamesInOrder | backup/src/backup.ts:30-34 | of two times a date can hold, the earlier has the earlier dump name if and only if their years keep order: both in 0 to 9999, or the earlier beyond, or the earlier below zero and the later the same or in 0 to 9999 |
| BackupNames.ArchiveNamesInOrder | backup/src/backup.ts:37-40 | the same of archive names |
| BackupNames.NamesInOrder | backup/src/backup.ts:52-57 | names sort as the places of their times do; in the years 0 to 9999 the place is the second itself |
| BackupNames.SecondAtPosition | backup/src/backup.ts:30-34 | a place is that of one time only |
| BackupNames.NamesAreManaged | backup/src/backup.ts:19-50 | the service recognises each file it writes as its own kind only |
| BackupNames.DumpsAreNotArchives | backup/src/backup.ts:20-25 | no file name is taken for both kinds |
| BackupLaws.NamesAreIso | backup/src/backup.ts:30-41 | the files of a run are named laetoli-, the ISO time of its start to the second with hyphens for colons, and .sql.gz or .storage.tar.gz |
| BackupLaws.OwnFilesAre | backup/src/backup.ts:19-50 | a name is a dump's or an archive's exactly if it is one line of text between that prefix and that ending |
| BackupLaws.RunIsExact | backup/src/server.ts:137-211 | a failed dump leaves part of a file at most, makes no archive and prunes nothing; a complete run adds its files and leaves of each kind those with fewer than keep newer ones and those that cannot be unlinked |
| BackupLaws.MirrorIsExact | backup/src/server.ts:172-205 | a mirror gets the copies that succeeded and is pruned by its own files |
| BackupLaws.RunIsRecorded | backup/src/server.ts:137-205 | the history holds every dump file and archive that a run left, and nothing else |
| BackupServers.SelectionIsExact | backup/src/backup.ts:71-80 | whatever order the directory is listed in, exactly the files with at least keep newer ones are selected |
| BackupServers.SelectionIsManaged | backup/src/backup.ts:71-80 | only managed files of the directory are selected |
| BackupServers.Directory.PruneDir | backup/src/server.ts:97-115 | what selection names is unlinked, failures skipped, other files untouched |
| BackupServers.Directory.PruneBoth | backup/src/server.ts:199-204 | dumps and then archives are pruned, each by its own count |
| BackupServers.Directory.Count | backup/src/server.ts:80-94 | the inventory counts exactly the dumps |
| BackupServers.BackupServer.Finish | backup/src/server.ts:149-205 | a complete run writes, mirrors, then prunes both directories |
| BackupServers.BackupServer.RunOnce | backup/src/server.ts:137-211 | at any time a date can hold, a run is the model's step of each directory, by the places of names; a failed dump ends it and prunes nothing |
| Retention.PruneKeepsCount | backup/src/server.ts:97-115 | pruning never leaves fewer than keep newer files where there were as many |
| Retention.PrimarySound | backup/src/server.ts:137-211 | a run keeps the invariant: a dump or archive goes only when keep newer dumps are present |
| Retention.KeptDumpsKeepTheirArchives | backup/src/server.ts:137-211 | in every run of the service a dump among the newest keep still has the archive made for it |
| Retention.MirroredDumpsKeepTheirArchives | backup/src/server.ts:172-205 | over whole runs, whatever cannot be unlinked, a mirror that never receives an archive without its dump keeps each kept dump's archive |
| Retention.SeparatesExactlyIf | backup/src/server.ts:172-205 | in any state of a mirror a pair now together will be separated by later complete copies if and only if more archives than dumps are newer and one more copy still leaves the dump kept |
| Retention.MirrorSeparatesExactlyIf | backup/src/server.ts:172-205 | in every reachable state of a mirror whose unlinks succeed, a kept dump with its archive will be separated from it if and only if more archives than dumps are newer |
| Retention.MirrorCanSeparate | backup/src/server.ts:172-205 | such states are reached: one missed dump copy makes a mirror lose the archive of a dump it keeps |
| Retention.PruneLeavesNewest | backup/src/backup.ts:71-80 | exactly the newest min(keep, total) files are left |
| Retention.SuccessLeavesNewestEver | backup/src/server.ts:137-205 | after a complete run the directory holds the newest keep of all dump files ever made, complete or left by failed runs, each with its archive |
| Retention.CompleteDumpStaysExactlyIf | backup/src/server.ts:137-205 | after a complete run a complete dump is in the directory if and only if fewer than keep newer dump files were ever made, complete or not |
| Retention.NewestCompleteStayExactlyIf | backup/src/server.ts:137-205 | all of the newest keep complete dumps are there if and only if no more leavings of failed runs are newer than the oldest of them than there are dumps missing to make up keep |
| Retention.FailedRunsPushOut | backup/src/server.ts:137-205 | at keep two, two failed runs that left part of a dump make the next run unlink the only earlier complete one |
| Retention.NewDumpIsKept | backup/src/server.ts:137-205 | a dump later than the others survives its own run when keep is positive |
| EnvFiles.ParseEnv | cli/src/lib/env.ts:11-30 | the loop over the lines is the fold of their entries, later ones winning |
| EnvFiles.FillEnv | cli/src/lib/env.ts:38-61 | the mapped lines and the appended keys make the filled text |
| EnvFiles.ParsePair | cli/src/lib/env.ts:13-27 | a written entry is read back with its value trimmed and unquoted |
| EnvFiles.GatherIgnoresReturns | cli/src/lib/env.ts:13-14 | carriage returns at line ends do not matter to the parse |
| EnvTheorems.SameKey | cli/src/lib/env.ts:16-18 | the key taken from a raw line is that of the trimmed line |
| EnvTheorems.GatherFilled | cli/src/lib/env.ts:40-51 | filling the lines overrides exactly the entries they hold |
| EnvTheorems.SeenAreDefined | cli/src/lib/env.ts:47-53 | the keys seen are exactly those of the values that the template defines |
| EnvTheorems.FillThenParse | cli/src/lib/env.ts:11-61 | for clean values, parsing a filled template is the parsed template updated by them |
| EnvTheorems.SurvivesExactlyIfClean | cli/src/lib/env.ts:11-61 | a map of entries updates every template by exactly itself if and only if all its entries are clean |
| EnvLaws.QuotedValue | cli/src/lib/env.ts:20-27 | a value in single or double quotes is read as what is between them |
| EnvLaws.PlainValue | cli/src/lib/env.ts:18-27 | a value without outer blanks or quotes is read as it is |
| EnvLaws.SaysNothing | cli/src/lib/env.ts:14-17 | blank lines, comments and lines without an equals sign hold no entry |
| EnvLaws.LastLineWins | cli/src/lib/env.ts:11-30 | the last line with a key gives its value |
| EnvLaws.LinesAre | cli/src/lib/env.ts:13 | a text is split at line feeds, and a line that one ends loses its carriage return |
| EnvLaws.FilledLineIs | cli/src/lib/env.ts:40-51 | a line is replaced exactly if it is no comment and assigns a key that is given a value |
| EnvLaws.FilledInPlace | cli/src/lib/env.ts:38-61 | the filled text has the template's lines in their order, each its own or replaced, and then one entry for each key that no line assigns, after a line break and with one at the end |
| ObjectPaths.CleanSegments | storage/src/validation.ts:56-64 | the loop keeps the naming segments, or refuses at a parent reference |
| ObjectPaths.ValidateObjectPath | storage/src/validation.ts:42-69 | validation by its branches: empty, NUL, too long, parent reference, nothing left, or the joined segments |
| ObjectPaths.ValidateIsIdempotent | storage/src/validation.ts:42-69 | an accepted path validates to itself |
| ObjectPaths.AcceptedIsBelow | storage/src/store.ts:46-55 | whatever string is not refused names a file strictly below the directory |
| ObjectPaths.ObjectResolves | storage/src/store.ts:47-55 | a validated path resolves to the bucket's directory and its segments, refused exactly if the first begins with two dots |
| ObjectPaths.ObjectsAreApart | storage/src/store.ts:47-55 | two objects share a file if and only if they have the same bucket and validated path |
| ObjectPaths.CacheIsApart | storage/src/store.ts:21-26 | no object of a bucket is a file of the cache, whatever the path and the key |
| PathLaws.AcceptedExactly | storage/src/validation.ts:42-69 | a path of parts between slashes is refused exactly if it is empty, longer than 1024 characters, has a part of two dots or none that names something; else it stands for its naming parts |
| PathLaws.BackslashIsSlash | storage/src/validation.ts:55 | a backslash is as good as a slash |
| PathLaws.NulIsRefused | storage/src/validation.ts:48-50 | a path with a NUL is refused |
| PathLaws.UpUndoesDown | storage/src/store.ts:46-55 | going down to a name and up again leads nowhere else |
| PathLaws.AbsoluteLeadsAnywhere | storage/src/store.ts:46-55 | a text that begins with a slash leads to one place from every directory |
| Transforms.WantedIsLegal | storage/src/transform.ts:71-153 | parsed parameters lie in their ranges and ask for something |
| Transforms.CanonicalIsInjective | storage/src/transform.ts:167-177 | the stand-ins for absent parameters collide with no legal value |
| Transforms.CacheKeyIsInjective | storage/src/transform.ts:161-182 | two variants share a key only if object, parameters, size and millisecond agree |
| Transforms.CacheKeyResolves | storage/src/store.ts:123-131 | a key names one file of the cache, in the bucket's folder |
| TransformLaws.QueryIsRead | storage/src/transform.ts:71-153 | a query is malformed exactly if a parameter given is; it asks for nothing without a size or a format; else it asks for each parameter's own value, sizes capped at 2000 and a missing resize meaning cover |
| TransformLaws.DimensionOfNumeral | storage/src/transform.ts:147-153 | a numeral above zero is a dimension, and is its number |
| TransformLaws.RastersAreTransformed | storage/src/transform.ts:185-191 | images are transformed in whatever case their type is written, except image/svg+xml |
| TransformLaws.VariantsAreTyped | storage/src/transform.ts:194-200 | a variant has the type of the format asked for, or else that of the image |
| TransformLaws.KeysAreNamed | storage/src/transform.ts:161-182 | a variant is kept in its bucket's folder under the hash and an ending for its format |
| TransformCache.CachedIsCurrent | storage/src/handlers.ts:365-375 | what is cached under a variant's key is that variant of the current bytes |
| TransformCache.ServeIsCoherent | storage/src/handlers.ts:357-391 | a variant served, cached or made, is the fresh one, and what is stored is sound |
| TransformCache.StepIsCoherent | storage/src/handlers.ts:142-254 | uploads, deletions and downloads keep the cache sound and answer as without it |
| TransformCache.EveryAnswerIsFresh | storage/src/handlers.ts:322-400 | every download of every run answers as a service without a cache would, when contents with one fingerprint give the same variants |
| TransformCache.FreshAfterReplacement | storage/src/transform.ts:154-182 | after a replacement the download is fresh if and only if the fingerprints differ, or both contents give the same variant, or the first gave none |
| TransformCache.CoherentExactlyIfDistinguishable | storage/src/handlers.ts:322-400 | every download of every run over a set of uploads answers as without a cache if and only if contents of one object with one fingerprint give the same variants |
| StorageLaws.LastUploadIsServed | storage/src/handlers.ts:322-400 | a download answers with the bytes and type of the last upload, or the variant made of those bytes when one is wanted and can be made |
| StorageLaws.DeletedIsNotFound | storage/src/handlers.ts:229-254 | a deleted object is not found until it is uploaded again |
| StorageLaws.ChangesAreExact | storage/src/handlers.ts:142-254 | an upload or a deletion changes the bytes and type of that object alone, as far as it came, and never the cache |
| StorageLaws.DownloadKeeps | storage/src/handlers.ts:357-391 | a download changes nothing but the entry of its own variant, and that only where the cache can be written |
| StorageLaws.UnreadableIsFresh | storage/src/handlers.ts:365-375 | where the cache cannot be read the answer is made of the current bytes |
| TransformCache.StorageService.Put | storage/src/handlers.ts:142-175 | any upload, complete or not, is the upload step, and what is cached stays made from uploads |
| TransformCache.StorageService.Remove | storage/src/handlers.ts:229-252 | a deletion removes bytes and row of a known object, and leaves the cache |
| TransformCache.StorageService.OpenTransformed | storage/src/handlers.ts:357-391 | a variant comes from the cache or is made and stored; nothing when it cannot be made |
| TransformCache.StorageService.Open | storage/src/handlers.ts:322-350 | opening an object is the download step, and answers as a service without a cache would when contents with one fingerprint give the same variants |
| Migrations.PlanMigrations | cli/src/lib/migrate-plan.ts:51-80 | the loop sorts the files into pending, applied and changed, and lists recorded names without a file |
| Migrations.ChangedFiles | cli/src/lib/migrate-plan.ts:70-72 | a plan reports no change if and only if no applied file was edited |
| Migrations.EditedFilesStopEverything | cli/src/commands.ts:137-145 | an edited file makes the command fail with nothing applied |
| Migrations.OrderOfListingIsIrrelevant | cli/src/lib/migrate-plan.ts:43-45 | the plan does not depend on the order the directory is listed in |
| Migrations.Database.ApplyMigration | cli/src/lib/db.ts:40-57 | whichever statement of the transaction fails, the migration is committed with its record or nothing is; only the answer to a COMMIT can be lost |
| Migrations.Database.ApplyPending | cli/src/commands.ts:164-167 | pending migrations are applied in turn up to the first failure, as the model's step that MigrationLaws.ApplyReaches describes |
| Migrations.Database.CmdMigrate | cli/src/commands.ts:127-176 | an invocation is the model's step, with its result; MigrationLaws.InvocationIsExact says what it commits and reports |
| MigrationLaws.InvocationIsExact | cli/src/commands.ts:127-176 | in every state an invocation that is no status request and finds no edited file commits exactly the files to do, in name order, before the first one with a fault, and that one too where only the answer to its COMMIT is lost; it reports success if and only if no file to do has a fault |
| MigrationLaws.OtherwiseNothing | cli/src/commands.ts:127-162 | without a connection, with an edited file or for a status request nothing is committed, and only the last is a success |
| MigrationLaws.ApplyReaches | cli/src/commands.ts:164-167 | applying what is pending commits the files up to the first fault and succeeds exactly if there is none |
| MigrationLaws.CommitFilesRecords | cli/src/lib/db.ts:40-57 | each committed file is logged in turn and recorded with its checksum, and what was recorded stays |
| MigrationLaws.PendingIsToDo | cli/src/lib/migrate-plan.ts:51-80 | what is pending is the files without a record, in name order |
| MigrationLaws.AppliedAreDone | cli/src/lib/migrate-plan.ts:51-80 | what is listed as applied is the files with a record, in name order |
| MigrationLaws.ReportIsExact | cli/src/lib/migrate-plan.ts:65-80 | each edited file is reported with both checksums, and each record without a file as missing; nothing else is |
| Sorting.BeforeIsLexical | cli/src/lib/migrate-plan.ts:43-45 | one name comes before another exactly if, where they first differ, it ends or has the smaller character |
| Migrations.ApplyRest | cli/src/commands.ts:164-167 | applying the rest stops at a later prefix, and succeeds only at the end |
| Migrations.RunsCommitAPrefix | cli/src/commands.ts:127-176 | after any invocations the committed migrations are the first files in name order, each recorded with its checksum |
| Migrations.CommitsAreOrdered | cli/src/lib/migrate-plan.ts:42-45 | commits follow the file names strictly, so none happens twice |
| Migrations.NextPlanIsTheRest | cli/src/lib/migrate-plan.ts:51-80 | the next plan's pending list is exactly what no invocation committed, with nothing changed or missing |
| Migrations.SuccessLeavesNothing | cli/src/commands.ts:159-169 | after a success nothing is pending |

## Left out

- JSON text: inbound frames and notifications are parsed values, so `JSON.parse`, `parseNotification` and the escaping of `JSON.stringify` are not modelled.
- JSON numbers are represented by their `String()` text, and equality of objects and arrays by `JSON.stringify` is equality of the parsed values; numbers beyond the finite range, inherited keys such as `__proto__` on rows and rows that are arrays are not modelled.
- A socket either works or throws for the whole of one call; the set of those that throw is chosen anew for each call.
- `JSON.stringify` failing on a presence state, connection handling, authentication of sockets, metrics and log lines.
- Executors.Executor.Tick: jobs of one tick take their turns one after the other, while the source interleaves their awaits; they touch different rows, and overlapping ticks are not modelled.
- A stored `next_run` that cannot be parsed, cron steps beyond the finite numbers, the range limit of `Date`, manual runs, and what the SQL and HTTP actions do.
- NetBridges.NetBridge.Receive: request ids are inserted once and a restart of the process is not modelled; the HTTP call itself is one await that ends.
- NetBridges.StepOnce: assumes that loads and deletes succeed; NetBridges.FailedDeleteRepeatsExactly says what a failed delete does.
- AuthServices.AuthService.Serve: a handler is one atomic step, so interleavings of two handlers are not modelled.
- Digests are represented by the value they are the digest of, password hashing by equality, access tokens and signatures not at all; drawn tokens and family names are assumed not to repeat.
- Answers of status 400 for malformed bodies, the normalisation of addresses and phones, redirects, multi-factor enrolment, e-mail verification, user deletion and invitation, delivery of messages and the clean-up of expired rows.
- Base32.Decode: upper-casing beyond ASCII is an unspecified function, so only the ASCII letters are known to be case-insensitive.
- The HOTP and TOTP codes, which are cryptography around the Base32 text.
- FixedLimiters.EveryIntervalIsBounded: assumes a clock that never goes back, as does the bound of the sliding window.
- BackupServers.BackupServer.RunOnce: a clock reading that no JavaScript date can hold, for which the source throws before the run starts, is not modelled.
- Retention.KeptDumpsKeepTheirArchives: the number to keep is fixed, as it is within one process, and the directory starts without managed files; newest means last by name, which is last by time in the years 0 to 9999.
- Backup contents, sizes and status texts, the off-site command, and the timer that arms the next run.
- Cron parsing in the backup service repeats that of the scheduler and is modelled once, as is the API-key limiter of the functions service.
- EnvFiles.FillEnv: the values are given with the order of `Object.keys` as a parameter, since JavaScript puts integer-like keys first; the derived database URL is not modelled.
- ObjectPaths.ValidateObjectPath: values that are not strings are refused by the source before anything else and are not modelled; paths are POSIX paths.
- Transforms.WantedIsLegal: repeated query parameters are taken as already reduced to their first string, and which integers are finite numbers is a parameter.
- TransformCache.StorageService.Open: a handler is one atomic step, so an upload between the stat and the read of a download is not modelled; buckets, owners and signed links are not either.
- TransformCache.EveryAnswerIsFresh: the image library is a function of bytes and parameters, and the key's hash is collision-free.
- Migrations.RunsCommitAPrefix: the files are the same at every invocation; a file added later with an earlier name would be committed out of order.
- A Dafny `char` is a Unicode scalar value: names are ordered by scalar values and lengths count them, which agrees with JavaScript's UTF-16 code units for strings of the basic plane only.
- Migrations.Database.ApplyMigration: that the statements of an open transaction are seen by nobody until COMMIT is the database's promise; a migration's text that ends the transaction itself is not modelled; the checksum is any function of the contents.
- The reconnect outbox of the client library, the studio, the documentation sites and deployment scripts.
