# A verified model of log4cplus

This project models the parts of log4cplus that are hardest to get right and proves what they
promise: the event queue of `AsyncAppender` and its consumer thread, the logger hierarchy, the
rolling file appenders, the pattern layout's parser, the socket wire format, variable substitution
in properties, and three small protocols (the mapped diagnostic context, the counter of
asynchronous appends, the reconnecting socket appender).

`dafny verify dfyconfig.toml` checks everything. Every member has a body; nothing is assumed.

## How the model is laid out

| files | component |
|---|---|
| `AsyncQueue.dfy`, `QueueRuns.dfy`, `QueueExit.dfy`, `QueueProgress.dfy`, `Queue.dfy` | the bounded queue as a state machine over the steps of any number of producers, exit callers and one consumer; what every run keeps; what becomes of the calls; progress; the queue object with its flag bits |
| `LoggerTree.dfy`, `LoggerChain.dfy`, `LoggerPath.dfy`, `Hierarchy.dfy` | parent links and provision nodes as values; effective levels and appenders reached; the same said on the path to the root; the objects with their pointers |
| `Decimals.dfy`, `Files.dfy`, `RollingFile.dfy`, `SharedRollingFile.dfy` | a directory and its renames; the size-based appender; several processes sharing one file through a lock |
| `Calendar.dfy`, `Schedule.dfy`, `DailyNames.dfy`, `DailyRolling.dfy`, `HistoryCleaning.dfy` | the calendar, the six schedules, the default date patterns, the time-based appenders |
| `PatternParser.dfy`, `PatternPrinter.dfy`, `PatternForms.dfy`, `LoggerPrecision.dfy` | the conversion pattern parser, a printer for it, the patterns no printer writes, the precision of `%c` |
| `WireFormat.dfy`, `SocketBuffer.dfy`, `SocketStream.dfy` | messages, the byte buffer, frames over a stream |
| `Substitution.dfy`, `MappedContext.dfy`, `InFlight.dfy`, `InFlightFaults.dfy`, `Connector.dfy` | `substVars`, `MDC`, `in_flight`, `ConnectorThread` |

Objects that the program updates in place are classes whose methods are proved equal to functions
on values; the theorems are about those functions, over every input and every run. Concurrent
protocols are state machines: an action is one section that no other thread can observe in the
middle of, and a theorem about every run is a theorem about every interleaving.

## Where the code does not do what one would expect

Each of these is shown by a lemma with a concrete case or family, and the exact condition under
which the expected property holds is proved for all inputs.

* A logger called `r`, `ro` or `roo` that is created after one of its descendants is not linked in,
  because the test on parent names is a plain prefix test and the root is called `root`
  (`GetInstanceKeepsInv`, `UnlinkedExample`, `RightAfterEveryCall`). A logger that is created later
  between the two then moves existing loggers from the root to a parent with another level or other
  appenders (`TransparentIff`, `BypassedExample`).
* The root logger is documented never to be without a level, and its own `setLogLevel` sees to that.
  It is not virtual, so that calls through a `Logger` handle pass it by; then loggers without a level
  of their own have none, and asking for it throws (`RunHasLevelsIff`, `UnsetRootExample`).
* A process whose handle is stale rolls a live file of exactly the maximum size, because the limit
  is tested with `>` and the re-check with `<`; a later event then lands in a backup
  (`AppendRefinesIff`, `ExactlyFullExample`).
* The weekly schedule skips a Monday when the time is on a Sunday, so that two weeks share an
  archive (`NextRolloverCorrect`, `WeeklySunday`, `DueIff`, `WeeklyMixesWeeks`).
* A week with a new year in it has two names, and events of the new year are archived under the old
  one (`WeekName`, `AppendedKeepsIff`, `AppendMisfiles`).
* A daily appender that is restarted in a later period without rolling on close archives events
  under a period they are not of (`RestartKeepsIff`, `RestartMisfiles`).
* Cleaning the history leaves files behind when a heart beat comes earlier in its period than the
  one before it; and with monthly rollover, which counts 31 days for every month, also when too many
  shorter months lie between (`CleanCatchesUpIff`, `ShortMonthStays`). A negative history length
  deletes the present file (`PresentRemovedIff`).
* The precision of `%c` wraps around on names that begin with a dot (`ConvertedIff`,
  `LeadingDotExample`). The documentation promises the right-most components.
* Seconds outside of 32 bits do not survive the socket (`ReceivedSameIff`).
* In non-blocking mode a dropped event stays in the `in_flight` counter, and one whose task throws
  before its caller looks at the future is subtracted twice, after which a waiter can be left asleep
  at zero (`CounterIff`, `DropKeepsWaiting`, `RethrowUnderflows`, `UnderflowLosesWakeup`). This takes
  the pool's future to hand on the exception of its task.
* The comment on `substVars` says that an unknown variable becomes empty. The code leaves it as it
  stands unless empty variables are allowed, and the model follows the code.

## Model

| member | source | states |
|---|---|---|
| `AsyncQueue.InvStep` | src/queue.cxx:48-186 | every step of every thread keeps the joint invariant of flags, event order, permits, wake-ups and returns |
| `AsyncQueue.RunInv` | src/queue.cxx:48-186 | the invariant holds in every state any interleaving reaches |
| `QueueRuns.NoFault` | src/queue.cxx:141-162 | in no run does either assertion of `get_events` fail or the semaphore overflow |
| `QueueRuns.DeliveryOrder` | src/queue.cxx:59-76 | delivered, in hand, discarded and queued events are together the accepted ones in acceptance order; a draining shutdown delivers each exactly once; only a discarding one drops any |
| `QueueRuns.ReturnsAfterExit` | src/asyncappender.cxx:70-88 | after the exit request `get_events` returns at most twice more when draining and once when discarding, and that return is the consumer's last |
| `QueueRuns.NoLostWakeup` | src/queue.cxx:168-174 | a waiting consumer with work or an exit request was signalled or some caller is about to signal it |
| `QueueRuns.PermitConservation` | src/queue.cxx:146-164 | free and held permits and queued events add up to the bound, and after a discard of n events to the bound less n plus one; once the consumer has ended a permit remains exactly when the bound is not zero |
| `QueueRuns.ZeroLengthBlocks` | src/queue.cxx:56-57 | with a bound of zero no producer ever gets past the semaphore |
| `QueueRuns.DrainChoiceFixed` | src/queue.cxx:102-113 | later exit requests never change the choice between draining and discarding, and nothing is accepted any more |
| `QueueExit.CallsDecide` | src/queue.cxx:59-113 | in every state of every run the exit flag is set exactly when some exit request was made, the drain flag is what the first of them asked for, and the accepted events are those pushed before it, in order |
| `QueueExit.CallsAccounted` | src/queue.cxx:48-91 | no call is lost: in every state each event passed to `put_event` waits for a permit, has one, was accepted, or was refused because it came after an exit request |
| `QueueExit.DrainingDeliversAll` | src/asyncappender.cxx:154-172 | unless the first exit request was to discard nothing is dropped, and a consumer that ends after a first request to drain has delivered every event pushed before it |
| `QueueExit.DiscardingDropsQueue` | src/queue.cxx:151-164 | when the first exit request is to discard, of the events queued at that moment none is ever delivered: what is delivered is what the consumer had taken, and when it ends the rest has been dropped |
| `QueueProgress.WorkDecreases` | src/queue.cxx:128-186 | every step other than a new call decreases one measure of outstanding work |
| `QueueProgress.BoundedCompletion` | src/asyncappender.cxx:154-172 | without new calls every run is at most that long |
| `QueueProgress.QuiescentMeansDone` | src/asyncappender.cxx:154-172 | when nothing can move every call has returned, every accepted event was delivered or discarded, and the consumer has ended or sleeps with nothing to do |
| `QueueProgress.ConsumerMove` | src/asyncappender.cxx:64-89 | the consumer always has a step to make unless it has ended or sleeps unsignalled |
| `QueueProgress.CallerMove` | src/queue.cxx:48-125 | while the mutex is free some caller has a step to make unless all have left or wait for a permit |
| `Queue.EventQueue.constructor` | src/queue.cxx:38-42 | the new object is in the initial state |
| `Queue.EventQueue.PutSection` | src/queue.cxx:59-77 | the bit operations of `put_event` make the model's step, keep the permit unless exiting and return no error bit |
| `Queue.EventQueue.ExitSection` | src/queue.cxx:98-113 | the bit operations of `signal_exit` make the model's step, whose choice `CallsDecide` states, and signal only the first time |
| `Queue.EventQueue.GetSection` | src/queue.cxx:135-175 | the bit tests of `get_events` choose the model's branch, batch, permits to release and returned flags |
| `Queue.AfterDelivery` | src/asyncappender.cxx:81-87 | the consumer's bit tests decide between going on and ending as the model does |
| `LoggerTree.LastDot` | src/hierarchy.cxx:330-332 | the position found is a dot, and no dot lies between it and the start of the search |
| `LoggerTree.NearestUnique` | src/hierarchy.cxx:329-340 | a name has at most one nearest existing dotted prefix |
| `LoggerTree.ProperPrefixOfRoot` | src/hierarchy.cxx:42-50 | the root's name begins with a name exactly when that is `r`, `ro` or `roo` |
| `LoggerTree.LinkChildrenEffect` | src/hierarchy.cxx:369-380 | what the loop over a provision list does to each logger's parent |
| `LoggerTree.LinkUpEffect` | src/hierarchy.cxx:322-365 | the new logger's parent is its nearest existing prefix, and it waits exactly for the missing prefixes below that |
| `LoggerTree.ChildLink` | src/hierarchy.cxx:300-304 | an existing logger is adopted exactly when the new one is its nearest prefix and the root's name does not get in the way |
| `LoggerTree.NewLinks` | src/hierarchy.cxx:288-306 | the links and provision lists after a creation, for every logger and every prefix |
| `LoggerTree.WaitingAfter` | src/hierarchy.cxx:300-360 | provision lists stay known, sound and complete |
| `LoggerTree.GetInstanceKeepsInv` | src/hierarchy.cxx:278-309 | all parent links are right after a creation exactly when it is not one of the three names created after a descendant |
| `LoggerTree.GetInstanceKeepsLoose` | src/hierarchy.cxx:278-309 | every creation, whatever the name, leaves each logger at its nearest existing prefix, or at the root past one of the three names, and keeps the provision lists complete |
| `LoggerTree.UnlinkedExample` | src/hierarchy.cxx:375-378 | `r.x` then `r` leaves `r.x` at the root |
| `LoggerTree.RightAfterEveryCall` | src/hierarchy.cxx:278-309 | the links are right after every call of a run exactly when no call is such a creation |
| `LoggerTree.OrderIndependent` | src/hierarchy.cxx:322-380 | two runs that create the same names in any orders end with the same parents |
| `LoggerChain.LevelsSetIff` | src/loggerimpl.cxx:122-134 | the walk for the effective level ends, and every one finds a level exactly when the root has one |
| `LoggerChain.GetInstanceRooted` | src/hierarchy.cxx:278-309 | every chain of parents still ends at the root, even with the three names |
| `LoggerChain.DoKeepsValid` | src/hierarchy.cxx:205-309 | creation, level, additivity, appender and reset operations keep every chain of parents ending at the root |
| `LoggerChain.RunHasLevelsIff` | src/logger.cxx:299-303 | after any run of operations every logger has an effective level exactly when the run's last change of the root's level did not unset it |
| `LoggerChain.UnsetRootExample` | include/log4cplus/spi/loggerimpl.h:116 | the root is unset through its handle, and a logger without a level of its own has none |
| `LoggerChain.SlippedInIff` | src/hierarchy.cxx:369-380 | the new logger comes between each adopted logger and its old parent exactly when it does not both come under one of the three names and have a logger below it that hangs off the root |
| `LoggerChain.CreationTransparent` | src/loggerimpl.cxx:36-62 | in that case creating a logger changes no existing effective level and no sequence of appenders reached |
| `LoggerChain.TransparentIff` | src/hierarchy.cxx:369-380 | a creation is transparent for all settings exactly in that case |
| `LoggerChain.TreeOfRun` | src/hierarchy.cxx:278-309 | after every run of creations and changes of settings the links are those of the creations alone, and loosely right |
| `LoggerChain.RunTransparentIff` | src/hierarchy.cxx:278-309 | hence the same in every state a run can reach |
| `LoggerChain.LinkableRunTransparent` | src/hierarchy.cxx:278-309 | in a run that creates none of the three names after a logger below it every creation is transparent |
| `LoggerChain.BypassedLevel` | src/loggerimpl.cxx:122-134 | otherwise a logger without a level of its own can lose the root's level for that of `r`, `ro` or `roo` |
| `LoggerChain.BypassedExample` | src/hierarchy.cxx:369-380 | `r.x.z`, then `r` set to 20000, then `r.x`: the level of `r.x.z` changes from 10000 to 20000 |
| `LoggerChain.ResetEffect` | src/hierarchy.cxx:205-219 | after a reset every logger is at DEBUG and reaches no appender |
| `LoggerPath.PathExists` | src/loggerimpl.cxx:54-62 | every logger has a path of parent links to the root |
| `LoggerPath.PathUnique` | src/loggerimpl.cxx:54-62 | and only one |
| `LoggerPath.LevelOnPath` | src/loggerimpl.cxx:122-134 | the effective level is that of the first logger on the path, the logger itself included, that has one |
| `LoggerPath.ReachedOnPath` | src/loggerimpl.cxx:54-62 | an event reaches the appenders of the loggers on the path up to and including the first that is not additive, in path order |
| `LoggerPath.OnlyThePathMatters` | src/loggerimpl.cxx:54-62 | no setting of a logger above that one, or off the path, changes what an event reaches |
| `LoggerPath.LastSettingHolds` | src/loggerimpl.cxx:151-155 | in every run a logger has the level and the additivity it was given last, until a reset |
| `LoggerPath.AppendersAccumulate` | src/appenderattachableimpl.cxx:65-80 | between removals a logger's appenders are those it had and then those added, each once and in the order they came |
| `LoggerPath.AddedSinceRemoval` | src/appenderattachableimpl.cxx:111-123 | after a removal they are those added since |
| `Hierarchy.FindLastDot` | src/hierarchy.cxx:330-332 | the loop finds the last dot |
| `Hierarchy.LoggerHierarchy.SearchParents` | src/hierarchy.cxx:330-360 | the pointer loop makes the model's provision entries up to the nearest existing prefix |
| `Hierarchy.LoggerHierarchy.UpdateParents` | src/hierarchy.cxx:322-365 | pointers and provision lists become those of the model |
| `Hierarchy.LoggerHierarchy.UpdateChild` | src/hierarchy.cxx:375-378 | one child is relinked as in the model |
| `Hierarchy.LoggerHierarchy.UpdateChildren` | src/hierarchy.cxx:368-380 | the loop relinks all children as in the model |
| `Hierarchy.LoggerHierarchy.Link` | src/hierarchy.cxx:300-305 | both directions of linking together are the model's creation |
| `Hierarchy.LoggerHierarchy.CreateNew` | src/hierarchy.cxx:288-306 | a new logger is registered, linked and has default settings; all other settings stay |
| `Hierarchy.LoggerHierarchy.GetInstance` | src/hierarchy.cxx:278-309 | root for the empty name, the existing logger for a known name, otherwise the model's creation |
| `Hierarchy.LoggerHierarchy.GetChainedLogLevel` | src/loggerimpl.cxx:122-134 | the pointer walk returns the model's effective level, and throws exactly when there is none and it did not start at the root |
| `Hierarchy.LoggerHierarchy.CallAppenders` | src/loggerimpl.cxx:54-62 | the pointer walk reaches the appenders that `ReachedOnPath` describes, in order, and counts them |
| `Hierarchy.LoggerHierarchy.IsEnabledFor` | src/loggerimpl.cxx:91-97 | throws exactly when it comes to that walk; otherwise enabled exactly when above the disable value and not below the effective level |
| `Hierarchy.LoggerHierarchy.SetRootLevel` | src/rootlogger.cxx:52-62 | the root's own method sets the level unless that would unset it |
| `Hierarchy.LoggerHierarchy.SetLogLevel` | include/log4cplus/spi/loggerimpl.h:116 | a call through a handle sets any level of any logger, the root included |
| `Hierarchy.LoggerHierarchy.ResetConfiguration` | src/hierarchy.cxx:205-219 | the loops make the model's reset |
| `Files.BackupNames` | src/fileappender.cxx:165-185 | numbered backups are told apart by their numbers |
| `Files.RolloverFilesMoves` | src/fileappender.cxx:158-191 | every existing backup moves up by one, the last is dropped and the first place is free, whatever gaps there are |
| `Files.RolloverFilesKeeps` | src/fileappender.cxx:158-191 | no other file is touched |
| `Files.EverythingRolled` | src/fileappender.cxx:158-191 | counted with multiplicity, the contents of the last backup are lost and nothing else |
| `Files.FileSystem.ShiftBackups` | src/fileappender.cxx:158-191 | the loop makes that shift, and no rename lands on an existing file |
| `RollingFile.RolloverIsShift` | src/fileappender.cxx:576-605 | a rollover is an exact shift of the live file and its backups and touches no other file |
| `RollingFile.RolloverRetains` | src/fileappender.cxx:576-605 | a rollover forgets exactly the oldest backup |
| `RollingFile.AppendRetains` | src/fileappender.cxx:512-528 | after an append the live file is within the limit, and only records at the old end are gone |
| `RollingFile.RunRetains` | src/fileappender.cxx:482-605 | over any run, backups and live file together are a suffix of everything appended |
| `RollingFile.RunBackups` | src/fileappender.cxx:512-528 | every backup made in a run exceeds the limit by its last record only, but for the first when the live file was over the limit at the start; older backups keep their order |
| `RollingFile.OpenedOverLimit` | src/fileappender.cxx:512-528 | a file over the limit when it is opened is rolled over before the first record if a lock file is used, and after it if not |
| `RollingFile.RollingFileAppender.constructor` | src/fileappender.cxx:482-497 | too small limits are raised, at least one backup is kept, and the file is opened for appending |
| `RollingFile.RollingFileAppender.Rollover` | src/fileappender.cxx:531-608 | the object makes the model's rollover without overwriting a file |
| `RollingFile.RollingFileAppender.Append` | src/fileappender.cxx:512-528 | the object makes the model's append without overwriting a file |
| `SharedRollingFile.RollSharedEffect` | src/fileappender.cxx:543-605 | a rollover with other processes' handles open does to the names what a lone one does |
| `SharedRollingFile.RollKeepsInv` | src/fileappender.cxx:543-573 | after a rollover every stale handle leads to a file over the limit |
| `SharedRollingFile.AppendRefines` | src/fileappender.cxx:512-573 | an append that is not risky goes to the live file and leaves the directory a lone process would leave |
| `SharedRollingFile.AppendRefinesIff` | src/fileappender.cxx:562-568 | it does so exactly when the handle is not stale or the live file is not at exactly the limit |
| `SharedRollingFile.RunRefines` | src/fileappender.cxx:512-573 | any number of processes interleaving such appends leave the directory of a lone process |
| `SharedRollingFile.RunRefinesIff` | src/fileappender.cxx:512-573 | after a run and all its beginnings the directory is that of a lone process exactly when no append is risky |
| `SharedRollingFile.NobodyInv` | src/fileappender.cxx:543-573 | the invariant holds before anyone has opened the file |
| `SharedRollingFile.BothJoin` | src/fileappender.cxx:255-290 | the start of the example is reached by two processes opening the file |
| `SharedRollingFile.ExactlyFullExample` | src/fileappender.cxx:520-562 | after four appends by two processes the last record is in a backup and the one before it in the live file |
| `Calendar.GregorianMonth` | src/fileappender.cxx:848-1005 | every Gregorian month has 28 to 31 days |
| `Calendar.GregorianAnchors` | src/fileappender.cxx:848-1005 | the day numbers of 1970-01-01 and 2100-03-01 are those of the Gregorian calendar |
| `Calendar.GregorianIsCalendar` | src/fileappender.cxx:848-1005 | the Gregorian calendar is one of those the schedules are proved for |
| `Calendar.MonthOfUnique` | src/fileappender.cxx:848-1005 | a day belongs to one month |
| `Calendar.BackByMonths` | src/fileappender.cxx:1457-1465 | going back 31 days n times goes back at least n months |
| `Calendar.MkTimeOfLocalTime` | src/fileappender.cxx:848-1005 | `mktime` undoes `localtime` |
| `Schedule.PeriodReached` | src/fileappender.cxx:848-1005 | a time is in a period or later exactly when it is not before the period's start |
| `Schedule.BoundaryIsStart` | src/fileappender.cxx:848-1005 | the clock shows a boundary exactly at the starts of periods |
| `Schedule.NextIsPeriodStart` | src/fileappender.cxx:848-1005 | the computed time is the start of the next period, or of the one after when it skips |
| `Schedule.NextRolloverCorrect` | src/fileappender.cxx:672-687 | the next rollover is later and on a boundary, `mktime` never reports an error, and it is the first boundary exactly when the schedule does not skip |
| `Schedule.WeeklySunday` | src/fileappender.cxx:880-900 | on a Sunday the coming Monday is passed over |
| `Schedule.NextRolloverMonotone` | src/fileappender.cxx:848-1005 | later times never have an earlier next rollover |
| `DailyNames.DefaultDateNamesPeriod` | src/fileappender.cxx:1017-1062 | two times get the same date text exactly when they are in the same period, for every schedule but the weekly one |
| `DailyNames.WeekName` | src/fileappender.cxx:1029-1031 | two times get the same weekly text exactly when they are in the same week and the same year |
| `DailyNames.DefaultDateHasNoDot` | src/fileappender.cxx:1017-1062 | no default date has a dot in it |
| `DailyNames.DefaultDateReads` | src/fileappender.cxx:1024-1054 | every default date but the weekly reads back to the local year, month from one, day, hour and minute, as far as its period goes; twice daily it ends in AM before noon and in PM from noon on |
| `DailyNames.WeekReads` | src/fileappender.cxx:1029-1031 | the weekly one reads back to the year and the number of its Mondays so far |
| `DailyNames.WeekCountsMondays` | src/fileappender.cxx:1029-1031 | the week number is that count, for every day of a year and every weekday |
| `DailyNames.ArchiveNames` | src/fileappender.cxx:1058-1062 | archives, numbered backups and the live file have different names |
| `DailyRolling.RolledKeeps` | src/fileappender.cxx:769-843 | a rollover keeps every event in a file of its own period and empties the live file |
| `DailyRolling.RollShift` | src/fileappender.cxx:797-833 | with at least one backup a rollover is an exact shift in which only the last backup is lost |
| `DailyRolling.RolledConserves` | src/fileappender.cxx:797-833 | a rollover loses the events of the deleted backup and no other, counted with multiplicity |
| `DailyRolling.RunConserves` | src/fileappender.cxx:741-843 | in every run of appends and restarts the events on disk and those of deleted numbered backups are together exactly those there were and those appended, each as often as it was appended |
| `DailyRolling.DueIff` | src/fileappender.cxx:758-760 | a rollover is due exactly for events of later periods, exactly when the schedule does not skip the event's period |
| `DailyRolling.RestartKeepsIff` | src/fileappender.cxx:718-748 | a restart leaves the live file to be archived where its events belong exactly when it was rolled on close, is empty, or the clock still gives the same archive |
| `DailyRolling.RestartMisfiles` | src/fileappender.cxx:718-748 | otherwise the next rollover puts events under a period they are not of |
| `DailyRolling.AppendedKeepsIff` | src/fileappender.cxx:755-764 | an append in order does so exactly when the schedule does not skip the event's period and, for weeks, the event is of the year the archive is named after |
| `DailyRolling.AppendMisfiles` | src/fileappender.cxx:755-764 | otherwise the next rollover puts the event in an archive that is not its own |
| `DailyRolling.RunFiledIff` | src/fileappender.cxx:718-843 | for every schedule, in every ordered run of appends and restarts, every event is throughout in the live file, to be archived where it belongs, or in an archive or numbered backup of its own, exactly when every append and restart meets its condition |
| `DailyRolling.RunFiledSinceEpoch` | src/fileappender.cxx:718-843 | from an empty directory, rolling on close and with all readings since the epoch, every ordered run of every schedule but the weekly one is filed so throughout |
| `DailyRolling.WeeklyMixesWeeks` | src/fileappender.cxx:755-764 | a weekly file opened on a Sunday is archived together with the following week's events |
| `DailyRolling.DailyRollingFileAppender.constructor` | src/fileappender.cxx:610-624 | the live file is opened for appending, name and next rollover are those of the clock |
| `DailyRolling.DailyRollingFileAppender.Rollover` | src/fileappender.cxx:768-843 | the object makes the model's rollover; with at least one backup and no dot in the date no rename overwrites a file |
| `DailyRolling.DailyRollingFileAppender.Append` | src/fileappender.cxx:755-764 | the object makes the model's append |
| `DailyRolling.DailyRollingFileAppender.Close` | src/fileappender.cxx:741-747 | the object rolls over on close if it is told to |
| `HistoryCleaning.TimeBasedRollingFileAppender.Clean` | src/fileappender.cxx:1431-1455 | the loop removes exactly the files named after the computed times, whose periods the `RemovesIff` lemmas give, and remembers the heart beat |
| `HistoryCleaning.TimeBasedRollingFileAppender.CleanAtInit` | src/fileappender.cxx:1325-1337 | starting removes the files of a first heart beat, now or the kept periods later, and takes the present for the last one |
| `HistoryCleaning.BackByPeriods` | src/fileappender.cxx:1457-1476 | going back n durations goes back at least n periods, and forward as many forward; exactly n for schedules of even length |
| `HistoryCleaning.CleanKeepsRecent` | src/fileappender.cxx:1431-1455 | whatever the last heart beat, no file of the period of the time argument or of the maxHistory periods before it is removed |
| `HistoryCleaning.CleanOnStartKeepsPresent` | src/fileappender.cxx:1328-1331 | cleaning on start never removes the file of the present period |
| `HistoryCleaning.CleanOnStartForgetsHistory` | src/fileappender.cxx:1328-1331 | cleaning on start removes what a first heart beat would if no history were to be kept |
| `HistoryCleaning.FirstCleanRemovesIff` | src/fileappender.cxx:1433-1450 | the first heart beat is for exactly the last 4 weeks, 31 days, 744 hours or 44640 minutes before the kept periods; with monthly rollover for one month, that of 31 days back for it and each kept one; twice daily for every other of 62 half days, beginning twice the kept number back |
| `HistoryCleaning.LaterCleanRemovesIff` | src/fileappender.cxx:1433-1450 | a later one is, for schedules of even length, for exactly as many periods before the kept ones as whole durations have passed since the last, a second being allowed for |
| `HistoryCleaning.FileRemovedIff` | src/fileappender.cxx:1443-1452 | with a pattern that names periods one to one a file is removed exactly when one of the removals is for its period |
| `HistoryCleaning.PresentRemovedIff` | src/fileappender.cxx:1447-1452 | for every schedule the present file is removed exactly when the history length is negative and enough periods are removed |
| `HistoryCleaning.CleanCatchesUpIff` | src/fileappender.cxx:1433-1447 | between two heart beats, the first not at time zero, which stands for none, every file that expires is removed exactly when, for periods of even length, the second comes at most a second earlier in its period than the first; for months, 31 days have passed for each month gone by and as many days back for each of these and of the kept months still lead into the first expired one; never for half-days |
| `HistoryCleaning.ShortMonthStays` | src/fileappender.cxx:1433-1461 | with heart beats at the starts of two months in a row the file of the first is removed exactly when that has 31 days |
| `PatternParser.Parser.ExtractOptionAt` | src/patternlayout.cxx:709-732 | the option between braces, or nothing and the end of the pattern without a closing brace |
| `PatternParser.Parser.FinalizeConverter` | src/patternlayout.cxx:862-1026 | the converter for a character is added, as `ParseField`, `BareForms`, `AnyOption` and `UnknownLetter` describe it, and the parser is back among literals |
| `PatternParser.Parser.Step` | src/patternlayout.cxx:752-845 | one turn of the loop consumes at least one character and keeps the final outcome |
| `PatternParser.Parser.ParseAll` | src/patternlayout.cxx:749-857 | the loop consumes every character and returns the list that the printer and forms lemmas are about |
| `PatternPrinter.AtoiOfInteger` | src/patternlayout.cxx:736-745 | the precision is read back as it was printed |
| `PatternPrinter.ParseEscaped` | src/patternlayout.cxx:756-784 | escaped text, followed by anything, parses to the text |
| `PatternPrinter.ParseField` | src/patternlayout.cxx:786-845 | a printed converter, followed by anything, parses back to itself |
| `PatternPrinter.RoundTripIff` | src/patternlayout.cxx:749-857 | parsing a printed list joins adjacent literals and changes nothing else, hence gives the list itself exactly when no literal is empty or follows another |
| `PatternPrinter.ParsedPrintable` | src/patternlayout.cxx:749-1023 | whatever the pattern, the parser makes only converters that can be printed |
| `PatternPrinter.PrintedFormSameOutput` | src/patternlayout.cxx:749-1023 | for every pattern and event, the printed form of the parsed pattern has the same output |
| `PatternPrinter.ParseSpec` | src/patternlayout.cxx:786-845 | any written alignment, minimum, maximum and letter, after any text and before any, parse to their numbers, the maximum modulo 2^64 |
| `PatternForms.BareForms` | src/patternlayout.cxx:874-1009 | without an option, or with an empty one, `%c` has precision 0, `%d` and `%D` the format `%Y-%m-%d %H:%M:%S`, and `%E` and `%X` an empty key, whatever the widths, the text before and the text after |
| `PatternForms.UnclosedOption` | src/patternlayout.cxx:722-729 | an option that is not closed swallows the rest of the pattern and counts as none |
| `PatternForms.AnyOption` | src/patternlayout.cxx:874-1009 | any other option is the date format or key as it stands, or the precision as `atoi` reads it |
| `PatternForms.AtoiReads` | src/patternlayout.cxx:736-745 | white space is skipped, one sign heeded, and the number ends at the first character that is no digit; without a number it is 0 |
| `PatternForms.UnknownLetter` | src/patternlayout.cxx:1011-1019 | a specification whose letter means nothing becomes a literal of its own |
| `PatternForms.BrokenOff` | src/patternlayout.cxx:850-853 | one that breaks off at the end of the pattern becomes a literal |
| `PatternForms.PointWithoutDigits` | src/patternlayout.cxx:818-834 | one without digits after its point is read as if its percent sign had been doubled |
| `LoggerPrecision.Convert` | src/patternlayout.cxx:509-533 | the loop returns the specified text |
| `LoggerPrecision.LastComponentsUnique` | src/patternlayout.cxx:509-533 | the last components of a name are determined by their number |
| `LoggerPrecision.ConvertedIff` | src/patternlayout.cxx:509-533 | the text is the last components of the name exactly when the name does not both begin with a dot and have fewer components than asked for |
| `LoggerPrecision.LeadingDotExample` | src/patternlayout.cxx:523-530 | `.a.b` with three components prints `b` |
| `WireFormat.IntRoundTrip` | src/socketbuffer.cxx:115-132 | four bytes read back to the number modulo 2^32 |
| `WireFormat.ReadStringOf` | src/socketbuffer.cxx:136-192 | a written string is read back, and what follows it is left |
| `WireFormat.DecodeOfMessage` | src/socketappender.cxx:211-275 | a message decodes to its event, with the server's name and ` - ` before a nested context that is not empty, and is used up |
| `WireFormat.ReadWideStringOf` | src/socketbuffer.cxx:161-168 | of a string with two bytes for a character those that fit one byte arrive, and a space for each of the others |
| `WireFormat.ReadCutString` | src/socketbuffer.cxx:136-160 | where fewer bytes follow than a length announces all but the last are the string, and where none follow an exception is thrown |
| `WireFormat.DecodeOfTooLittle` | src/socketappender.cxx:235-275 | fewer than six bytes decode to an event whose every field is empty or zero |
| `WireFormat.ReceivedSameIff` | src/socketappender.cxx:228-231 | apart from the diagnostic contexts and the second thread name the event arrives unchanged exactly when its seconds fit 32 bits |
| `SocketBuffer.SocketBuffer.ReadByte` | src/socketbuffer.cxx:73-88 | the object reads as specified, zero past the end |
| `SocketBuffer.SocketBuffer.ReadShort` | src/socketbuffer.cxx:93-110 | the object reads as specified, zero past the end |
| `SocketBuffer.SocketBuffer.ReadInt` | src/socketbuffer.cxx:115-132 | the object reads as specified, zero past the end |
| `SocketBuffer.SocketBuffer.ReadString` | src/socketbuffer.cxx:136-192 | the object reads narrow and wide strings as specified, cuts lengths that overrun the buffer, and throws when nothing is left |
| `SocketBuffer.SocketBuffer.AppendByte` | src/socketbuffer.cxx:197-210 | the byte is added if it fits, otherwise an exception and no change |
| `SocketBuffer.SocketBuffer.AppendInt` | src/socketbuffer.cxx:234-248 | four bytes are added if they fit |
| `SocketBuffer.SocketBuffer.AppendString` | src/socketbuffer.cxx:253-277 | length and characters are added if they fit |
| `SocketBuffer.ConvertToBuffer` | src/socketappender.cxx:211-235 | the buffer holds the whole message exactly when that fits, otherwise the conversion throws |
| `SocketBuffer.ReadFromBuffer` | src/socketappender.cxx:239-275 | the object decodes as specified |
| `SocketStream.Append` | src/socketappender.cxx:142-157 | one append sends the frame of the message exactly when that fits the limit |
| `SocketStream.StreamRoundTrip` | simpleserver/loggingserver.cxx:193-213 | for every list of events the server's loop makes of the frames exactly the events that fit, in order; and wherever the stream is cut off, a prefix of them |
| `SocketStream.Socket.ReadAll` | src/socket-unix.cxx:364-382 | however the bytes are portioned out, the buffer is filled with the next bytes of the stream, or the stream ends |
| `SocketStream.Socket.ReadBuffer` | src/socket.cxx:178-190 | a failed read closes the socket |
| `SocketStream.ReadFrame` | simpleserver/loggingserver.cxx:198-207 | length and message are taken off the stream |
| `SocketStream.ServeOne` | simpleserver/loggingserver.cxx:198-212 | one turn of the loop takes the next event off the stream, or finds that there is none |
| `SocketStream.ServeClient` | simpleserver/loggingserver.cxx:189-213 | the loop over a connection decodes what the specification makes of the stream, for every portioning |
| `Substitution.SplitUnique` | src/property.cxx:224-296 | a text is split into plain text and variables, with or without an unclosed one at the end, in only one way |
| `Substitution.NothingReplaced` | src/property.cxx:290-293 | variables that are not replaced stay as they are written |
| `Substitution.LookupPrecedence` | src/property.cxx:271-275 | when the environment cannot influence a value, when the properties cannot, which of them it is otherwise, and exactly when a variable is replaced |
| `Substitution.SubstVars` | src/property.cxx:224-296 | the result is the text with each variable replaced on its own, with the flag true exactly when one was; with an unclosed variable it is the text itself and false |
| `MappedContext.DoKeepsInv` | src/mdc.cxx:84-193 | a key with saved values is present |
| `MappedContext.RunKeepsInv` | src/mdc.cxx:84-193 | the same over every run of puts, pushes and pops |
| `MappedContext.BracketRestoresKey` | src/mdc.cxx:227-247 | whatever matched pushes, pops and puts come between, and however other keys' brackets overlap, a pop restores its key's presence, value and saved values before the matching push |
| `MappedContext.WholeContextRestored` | src/mdc.cxx:227-247 | a sequence without puts whose pushes and pops match key by key restores the whole context |
| `MappedContext.ValueVisible` | src/mdc.cxx:104-170 | a key has the value of a push or put whenever its pushes and pops since then match and it was not put again |
| `MappedContext.LastWriteHolds` | src/mdc.cxx:104-170 | in every run a key not touched since has the value last pushed or put |
| `MappedContext.RunRefinesCells` | src/mdc.cxx:84-193 | in every run every key reads as the top of a pile of cells over one that may be empty: a put writes the top cell, a push adds one, a pop takes one away or empties the last |
| `MappedContext.MDC.InsertOrAssign` | src/mdc.cxx:84-101 | the map is updated and the previous value returned |
| `MappedContext.MDC.PushToStack` | src/mdc.cxx:121-138 | the value is saved on the key's stack |
| `MappedContext.MDC.Put` | src/mdc.cxx:104-117 | the object makes the model's put |
| `MappedContext.MDC.Push` | src/mdc.cxx:141-170 | the object makes the model's push, whose effect `RunRefinesCells` states |
| `MappedContext.MDC.Pop` | src/mdc.cxx:173-193 | the object makes the model's pop |
| `InFlight.StepKeepsInv` | src/appender.cxx:277-350 | every step keeps the counter equation and the wake-up invariant |
| `InFlight.CounterIff` | src/appender.cxx:299-350 | in every run the counter equals the appends in flight exactly when as many events were dropped as exceptions rethrown; in blocking mode always |
| `InFlight.NoLostWakeup` | src/appender.cxx:237-251 | unless the counter was taken below zero, which needs a rethrown exception, no waiter sleeps at zero without some thread about to notify |
| `InFlight.WaitEndsWhenIdle` | src/appender.cxx:237-251 | in blocking mode a wait ends only at a moment when nothing is in flight |
| `InFlight.QuietMeansNobodyWaits` | src/appender.cxx:237-288 | in blocking mode no waiter is left when no work is left |
| `InFlight.BoundedCompletion` | src/appender.cxx:277-350 | without new calls every run is bounded by a measure of the tasks and waiters left, and so comes to rest |
| `InFlightFaults.DropKeepsWaiting` | src/global-init.cxx:383-407 | after a drop, without rethrown exceptions, no wait ever ends |
| `InFlightFaults.RethrowUnderflows` | src/global-init.cxx:383-407 | a run in which one append is subtracted twice |
| `InFlightFaults.UnderflowLosesWakeup` | src/appender.cxx:277-288 | a run after which a waiter sleeps at zero with nobody to wake it |
| `Connector.StepKeepsInv` | src/connectorthread.cxx:50-115 | every step of appends, terminate and the thread keeps the invariant |
| `Connector.EveryRunSafe` | src/socketappender.cxx:81-197 | in every interleaving a disconnected appender's socket is closed, no open socket is ever replaced, a request to reconnect keeps the wake event signalled until the thread goes to look at the socket, and terminate keeps it signalled for good |
| `Connector.BoundedReturn` | src/connectorthread.cxx:50-115 | once told to exit the thread takes at most five more steps and is never stuck before it returns |
| `Connector.RunDecides` | src/connectorthread.cxx:104-115 | in every run the thread is told to exit by terminate alone, and the last failure, installation or closing decides whether the appender is connected and its socket open |
| `Connector.TerminateEndsThread` | src/connectorthread.cxx:104-115 | after terminate the thread takes at most five more steps in any run and is never stuck before it returns |
| `Connector.ClosedForGood` | src/socketappender.cxx:81-93 | once close has closed the socket nothing opens it again |
| `Connector.RequestServed` | src/connectorthread.cxx:50-101 | from any state with a request to reconnect, however appends interleave, the thread looks at the socket within five of its own steps unless told to exit, and until then the request and its signal stand |
| `Connector.Reconnects` | src/connectorthread.cxx:61-101 | from a disconnected state an append leads to an open socket if the server can be reached |

## Left out

- Exceptions of the queue other than semaphore overflow, the fall-back of `AsyncAppender::append` to synchronous operation, and the 32-bit wrap-around of the event's signal counter.
- `Hierarchy::clear`, `Hierarchy::disable` and logger factories other than the default one.
- Failures of file operations, a crash in the middle of a rollover, reopening after a delay, and failure to take the lock file.
- Windows branches, which remove the target before each rename, and builds with wide characters.
- Daylight saving and other changes of the offset from UTC: the offset is a fixed number of whole minutes.
- The date patterns of `TimeBasedRollingFileAppender` and custom date patterns; the cleaning is proved for every pattern that tells periods apart, or names them one to one, and `%p` is that of the C locale.
- Overflow of the minimum width and of the precision in conversion patterns, which is undefined in C++; the model's numbers are unbounded. The maximum width wraps around at 2^64.
- Padding and truncation of converter output, the converters' access to the event, and the depth limit of `%x`, which would add easy members.
- Partial sends, and sending from builds with another character size.
- Recursive expansion in `substVars`, which need not terminate, and the parsing of property files.
- `MDC::remove` and `MDC::clear`; the threads' separate contexts.
- The thread pool beyond a number of queued and running tasks.
- `SysLogAppender` and the other users of the connector thread; the choice of address and the socket calls themselves.
- Filters, error handlers, internal logging, NDC, registries, configurators and the C interface.
