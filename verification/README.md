# Verification of the thread pool, timer queue, log formatter, configuration and logger registry

This project models five parts of the library in Dafny and proves what they promise, and, where a promise fails,
exactly when. `dafny verify dfyconfig.toml` checks everything. The parts are these.

* **The worker pool and the timer queue** are transition systems: every thread has a program counter, mutexes have
  owners, and waiting, notifying and spurious wakeups are steps. `ThreadPool.dfy` has the pool and its inductive
  invariants; `PoolShutdown.dfy` says when `Shutdown` returns, `PoolFlag.dfy` what is decided when it writes its flag
  and `PoolCall.dfy` what when it is called; `PoolTrace.dfy` follows each call of `execute` through a run;
  `TaskSet.dfy` has the set ordered by time point; `TimerQueue.dfy` embeds the pool in the timer;
  `TimerInvariants.dfy` and `TimerShutdown.dfy` hold the composed invariants and results, `TimerCalls.dfy` follows
  each task that is asked for to its end, `TimerHang.dfy` says when the timer's `Shutdown` returns, and
  `TimerReach.dfy` has runs that exist; `Lateness.dfy` bounds how late a schedule runs, and `BatchRun.dfy` shows that
  runs of the pool under a clock have that schedule.
* **The log formatter.** `PatternGrammar.dfy` says what a pattern is, independent of any scan; `LogFormatter.dfy` has
  the two nested index loops and proves that they read that grammar; `PatternPrinter.dfy` has the printer that
  inverts the parser; `Rendering.dfy` and `BufferRendering.dfy` have the two renderers, `DefaultLine.dfy` what the
  default pattern prints. `Chain.dfy` is the common theory of pieces of text in a row, `Sequences.dfy` that of
  sequences, and `Letters.dfy` has the alphabet.
* **Configuration.** `ConfigTree.dfy` (trees, dotted names, flattening), `ConfigOrder.dfy` (the order of the nodes),
  `ConfigLoad.dfy` (the typed registry and loading), `ConfigCase.dfy` (capitals in keys), `ConfigVar.dfy` (values and
  listeners), `LexicalCast.dfy` (container conversions), `LoggerConfig.dfy` and `LoggerReading.dfy` (the logger
  conversions), `LoggerSets.dfy` and `LoggerText.dfy` (sets of loggers, and their text).
* **The logger registry.** `LogRegistry.dfy` has the change listener as it is written, `Reconciliation.dfy` proves
  what it keeps over every run of changes, `UsableFormatters.dfy` which changes throw, `AppenderPatterns.dfy` what each
  appender prints with, and `LoadedLoggers.dfy` follows configuration files through to the loggers.

Where the code updates fields or runs loops in one thread, the model is a class or a method with the same loops,
proved equal to a specification function; the results about that function are lemmas. Interleavings are modelled as
steps of a state machine instead.

## What the code does, where a reader may expect otherwise

* `ThreadPool::Shutdown` writes the flag without the task mutex. A worker that has evaluated its wait predicate but
  not yet blocked misses `notify_all`, and `Shutdown` joins it for ever unless a caller already inside `execute`
  happens to wake it; once the flag is up and tasks return this is the only way to hang
  (`HangsIffWorkerBetweenTestAndBlock`). A call of `Shutdown` on a pool with workers is safe from this, as long as
  nobody calls `execute` and nobody wakes spuriously, exactly if there is nothing to do, no caller is inside `execute`,
  and every worker is asleep or already on its way to its wait with the mutex in its hands (`CallMayHangIff`). Hanging
  is possible even for a timer that was never used (`ShutdownCanHang`).
* `TimerQueue::Shutdown` holds the timer mutex while it joins the workers. A task that adds a task to its own timer
  then waits for ever, and so does `Shutdown` (`AddingFunctionHangs`); once the flags are up this is the timer's only other way to hang.
* A task pushed after `Shutdown` saw the list empty can be dropped: what has run in the end are the tasks already taken
  when the flag was written, and one more if a worker was just about to take it (`FlagDecidesFate`). Inside the timer
  nothing is dropped in this way, because nothing is pushed once the timer's flag is up (`ComposedShutdown`).
* A worker of the timer sleeps until its task's time point; the model takes this as what `sleep_until` means, and
  `NeverEarly` carries it through to the history.
* The timer's set ignores a task whose time point is taken, and a drain throws away what is already due; every other
  task that a call asks for before `Shutdown` writes its flag runs exactly once (`ComposedShutdown`).
* In a pattern a lone `%` vanishes and a run of k prints k - 1; a closing brace outside a parameter belongs to the
  directive's name; an unknown directive is printed as an error text but is no error; the error mark of an unclosed
  parameter comes out before the literal pending in front of it. Joining two patterns that do not run into each other
  is therefore compositional unless the second has nothing but literal characters in front of an unclosed parameter
  and the first ends in a literal that is more than error marks (`RenderAppendIff`).
* The buffer renderer doubles its string at most once for an item; whether a call stays in range can be reckoned from
  the lengths beforehand (`InRangeIffRoom`). An empty string is overrun by any first field that is not empty and neither
  literal nor file name (`EmptyBufferOverruns`).
* Only the levels DEBUG and INFO are recognised in text, and a logger's own formatter is not written to text
  (`ConfigRoundTrip` and, for whole sets, `LoggerSetRoundTrip` give the exact condition).
* The root logger keeps its first appender exactly as long as no change has touched its entry (`RootLosesStdOut`); a
  logger's formatter is the last usable one given since the logger was last absent (`FormatterAfterChain`); a change
  that throws half way leaves the registry in line with the unchanged configuration exactly if every entry it reached
  is harmless (`FailureBreaksSync`). An attached appender prints with its own formatter or with the one its logger has,
  but the root logger's first appender always with the default one (`AppendersPrint`).
* Capitals in the keys of a tree do not matter, except inside a node that a variable's conversion is given as a whole
  (`CapitalsDoNotMatter`, `CapitalsShowIff`).
* A change of the loggers' configuration throws exactly if an entry that is not word for word in the old set gives an
  appender of an unknown type, a file appender without a file, or a pattern with a parameter that is never closed
  (`ChangeThrowsIff`).
* Loading a tree with distinct dot-free keys again changes nothing, but calls listeners again exactly if the first
  load was stopped by one (`ReloadIsIdempotent`).

## Model

| member | source | states |
|---|---|---|
| `ThreadPool.InvStep` | src/common/src/threadpool.cpp:25-70 | every step of every thread keeps the whole invariant: mutex ownership, what each position knows about list and flag, joins, FIFO, in-flight tasks, owed wakeups |
| `ThreadPool.RunKeepsInv` | src/common/src/threadpool.cpp:25-70 | and so does every run |
| `ThreadPool.PoolConserves` | src/common/src/threadpool.cpp:43-70 | in every reachable state: submitted = dispatched followed by the list; a dispatched task is finished exactly if no worker holds it; no task is held or finished twice; the emptiness check in GetTask never fires |
| `ThreadPool.NoLostWakeup` | src/common/include/common/threadpool.h:48-54 | while the flag is down no worker has left, and notifications owed plus workers not asleep cover the list or all workers, under every interleaving and spurious wakeup |
| `ThreadPool.ShutdownRunsSealedTasks` | src/common/src/threadpool.cpp:25-41 | when Shutdown has returned every worker has left, every task pushed before the empty list was seen has run exactly once, and the tasks that did not run are exactly those in the list |
| `ThreadPool.InFlightStep` | src/common/src/threadpool.cpp:53-64 | each dispatched task is held by exactly one worker or listed once as finished, after every step |
| `ThreadPool.WakeupStep` | src/common/src/threadpool.cpp:43-57 | no step loses a wakeup |
| `PoolTrace.CallsArePushed` | src/common/include/common/threadpool.h:36-58 | over every run the list receives the tasks in the order of the pushes, and what each client has pushed is what it has called `execute` with, in order, but for one still in its hands |
| `PoolTrace.TakenInOrderOfPushes` | src/common/src/threadpool.cpp:43-70 | from the start on, the tasks taken followed by those listed are the pushed ones in order, told from the steps alone |
| `PoolTrace.PushedBeforeTheCall` | src/common/src/threadpool.cpp:25-41 | every task pushed before Shutdown was called has run when it returns |
| `PoolShutdown.BoundedExit` | src/common/src/threadpool.cpp:35-70 | once everyone is awake after the flag, workers and Shutdown take at most 7 W + 1 steps in any interleaving with callers of execute |
| `PoolShutdown.ExitProgress` | src/common/src/threadpool.cpp:35-70 | until Shutdown returns, a worker, Shutdown, or the client owning the mutex can move |
| `PoolShutdown.RunToReturn` | src/common/src/threadpool.cpp:35-70 | so some run without new callers and spurious wakeups returns, whatever callers are inside execute |
| `PoolShutdown.StrandedForever` | src/common/src/threadpool.cpp:37-51 | a worker that misses the notification stays asleep in every unaided run |
| `PoolShutdown.HangsIffWorkerBetweenTestAndBlock` | src/common/src/threadpool.cpp:35-51 | about to notify: Shutdown never returns without a new caller or spurious wakeup if and only if some worker stands between its predicate test and its block and no caller is inside execute |
| `PoolShutdown.OrderedFlagNeverStrands` | src/common/src/threadpool.cpp:35-37 | if no worker owns the task mutex when the flag is written, no worker ever stands in that window afterwards |
| `PoolShutdown.WindowReachable` | src/common/src/threadpool.cpp:35-51 | as written the window is reachable, and from it Shutdown does not return unaided |
| `PoolShutdown.LatePushCanBeLost` | src/common/src/threadpool.cpp:49-51 | a reachable state in which Shutdown has returned and a submitted task has not run; which tasks run in general is the next row |
| `PoolFlag.FlagDecidesFate` | src/common/src/threadpool.cpp:35-57 | for every run from the flag write to the return: the k-th task ever pushed has run if and only if it was already taken at the write, or is the one a worker was just about to take |
| `PoolFlag.TakenInTheEnd` | src/common/src/threadpool.cpp:43-57 | once the flag is up, taken tasks plus workers about to take one stay constant over every run |
| `PoolFlag.MayHangIffSomeoneStirs` | src/common/src/threadpool.cpp:35-51 | about to write the flag: some run without new callers and spurious wakeups leads to a state from which none returns, if and only if there is a worker and someone is awake or inside execute |
| `PoolCall.CallMayHangIff` | src/common/src/threadpool.cpp:25-51 | a call of Shutdown can hang without a new caller or spurious wakeup if and only if, before it, some task is listed, a caller is inside execute, or a worker is outside the critical section and not asleep; without workers, if a task is listed or about to be |
| `PoolCall.MayHangIffRestless` | src/common/src/threadpool.cpp:25-51 | the same in the state in which Shutdown starts to poll |
| `PoolCall.RestlessMayHang` | src/common/src/threadpool.cpp:25-51 | from every such state some run leads into the window between test and block |
| `PoolCall.CalmRun` | src/common/src/threadpool.cpp:25-51 | from every other state no run does, up to the flag and beyond |
| `TaskSet.InsertOrder` | src/common/include/common/timer.h:84-92 | inserting keeps time points strictly increasing |
| `TaskSet.InsertAdds` | src/common/include/common/timer.h:84-92 | an insert adds the task exactly if its time point is new and otherwise changes nothing |
| `TaskSet.InsertDues` | src/common/include/common/timer.h:84-92 | which time points are taken after an insert |
| `TaskSet.DrainSplits` | src/common/src/timer.cpp:48-60 | a drain hands over or discards every task, once |
| `TaskSet.DrainByTimePoint` | src/common/src/timer.cpp:48-60 | handed over are those later than the reading, in increasing order, discarded the others |
| `TaskSet.RepeatPointsMonotone` | src/common/include/common/timer.h:70-77 | the time points of one repeat are strictly monotone unless the interval is zero |
| `TaskSet.RepeatPointIs` | src/common/include/common/timer.h:72-75 | the i-th time point lies i + 1 intervals after the start |
| `TaskSet.TimerTasks.AddTaskAtTimePoint` | src/common/include/common/timer.h:53-62 | the new set, its order, that no task leaves it, and that the task is accepted, and then in the set, exactly if its time point was free |
| `TaskSet.TimerTasks.AddRepeatTask` | src/common/include/common/timer.h:70-77 | the i-th repetition is dropped only for a time point taken before the call (or a zero interval); the taken time points afterwards are the old ones and the repeat's, and no task leaves the set |
| `TaskSet.TimerTasks.Drain` | src/common/src/timer.cpp:48-60 | the loop hands over the later tasks in order and empties the set |
| `TimerInvariants.PoolRefines` | src/common/src/timer.cpp:24-66 | every step of the whole system leaves the pool alone or is one of the pool's steps; a call of execute only during a drain |
| `TimerInvariants.CallingStep` | src/common/src/timer.cpp:54-57 | a function that is adding a task is being run by its worker and stands inside its own call, after every step |
| `TimerInvariants.CoreStep` | src/common/src/timer.cpp:24-66 | lock ownership, the daemon's and the closer's knowledge and the pool invariant are kept by every step |
| `TimerInvariants.ConserveStep` | src/common/src/timer.cpp:47-61 | accepted = still in the set + discarded + handed over, after every step, also in the middle of a drain |
| `TimerInvariants.ClosedStep` | src/common/src/timer.cpp:31-45 | after the flag the accepted tasks of that moment stay split into discarded and handed over, and the pool's check sees every push |
| `TimerInvariants.TimerInvStep` | src/common/src/timer.cpp:24-66 | every step keeps the whole invariant of the composed system |
| `TimerInvariants.RunKeepsTimerInv` | src/common/src/timer.cpp:24-66 | and so does every run |
| `TimerShutdown.TimerConserves` | src/common/src/timer.cpp:37-66 | in every reachable state each accepted task is in exactly one of set, discarded, handed over; a discarded one was due at its reading; the set is increasing; neither emptiness check fires |
| `TimerShutdown.DrainHandsOverLater` | src/common/src/timer.cpp:48-60 | a finished drain has pushed exactly the tasks later than its single clock reading, in time order |
| `TimerShutdown.NeverEarly` | src/common/src/timer.cpp:54-57 | over every run the times at which functions have run are at or after their own tasks' time points, given that sleeping lasts until the time point |
| `TimerShutdown.TimerNoLostWakeup` | src/common/src/timer.cpp:25-64 | a sleeping daemon with work, or a sleeping Shutdown with an empty set, has a notification on its way |
| `TimerShutdown.ShutdownFates` | src/common/src/timer.cpp:24-62 | if TimerQueue::Shutdown has returned, each task accepted before it wrote the flag has run exactly once or was due at its drain, never both; later tasks are exactly those left in the set; every worker has left |
| `TimerShutdown.AllClosedRan` | src/common/src/timer.cpp:24-45 | the timer lock discharges the pool's hypothesis that nothing is pushed after its check |
| `TimerCalls.AddStep` | src/common/include/common/timer.h:57-59 | a caller's insert puts its task into the set and among the accepted ones exactly if no task of the set has its time point, and otherwise changes neither |
| `TimerCalls.AskedIsInserted` | src/common/include/common/timer.h:53-62 | over every run: what calls have asked for, from callers or from task functions, is what callers still hold and what they have inserted, each task counted |
| `TimerCalls.AskedAreAccepted` | src/common/include/common/timer.h:53-62 | from the start on, a task asked for is still held by its caller or has been inserted once, and is then accepted exactly if no task of the set had its time point at that moment |
| `TimerCalls.ComposedShutdown` | src/common/src/timer.cpp:24-62 | if TimerQueue::Shutdown has returned, each task ever asked for is still in its caller's hands, or was ignored for another task with its time point, or was inserted after the flag and is in the set, or has run exactly once, or was due at its drain: exactly one of these |
| `TimerReach.AddedTaskRuns` | src/common/src/timer.cpp:37-66 | a task added with any time point to come can run, and at its time point: such a run of the whole system exists |
| `TimerReach.DaemonSleepsOn` | src/common/src/timer.cpp:39-45 | a daemon with nothing to do that wakes for no reason sleeps again and leaves everything as it was |
| `TimerReach.ShutdownSleepsOn` | src/common/src/timer.cpp:25-28 | so does a Shutdown that waits for the set to become empty |
| `TimerReach.WorkerSleepsOn` | src/common/src/threadpool.cpp:43-51 | and so does a worker |
| `TimerHang.StrandedInTimer` | src/common/src/timer.cpp:31-45 | a worker that missed the notification stays stranded in the whole system |
| `TimerHang.StuckForever` | src/common/src/timer.cpp:24-35 | a function that waits for the timer mutex while Shutdown is inside the pool waits in every run from there |
| `TimerHang.AddingFunctionHangs` | src/common/include/common/timer.h:53-62 | any function that starts to add a task while Shutdown is inside the pool makes Shutdown hang |
| `TimerHang.RunToReturn` | src/common/src/timer.cpp:24-35 | from a state in which everyone is awake and no function waits for the mutex the whole system can run to the return of TimerQueue::Shutdown, the clock moving on where a worker sleeps |
| `TimerHang.TimerHangsIffWorkerBetweenTestAndBlock` | src/common/src/timer.cpp:24-35 | about to notify: TimerQueue::Shutdown never returns if and only if some worker stands between its test and its block, or some function waits for the timer mutex to add a task; no hypothesis about callers |
| `TimerHang.TimerMayHangIffSomeoneAwake` | src/common/src/timer.cpp:24-35 | about to write the pool's flag: TimerQueue::Shutdown can hang if and only if some worker is awake |
| `TimerHang.ShutdownCanHang` | src/common/src/timer.cpp:24-35 | a state from which it never returns is reachable with nothing ever added |
| `Lateness.ExcessBound` | src/common/src/timer.cpp:48-58 | in a schedule, the work reaching past a task's time point is at most the running time of the earlier ones |
| `Lateness.LatenessBound` | src/common/src/timer.cpp:48-58 | in a schedule that gives the head of the list to a worker free first, no task starts early, and W times its lateness is at most the running time of the earlier ones |
| `Lateness.InstantJobsOnTime` | src/common/src/timer.cpp:48-58 | in such a schedule functions that take no time run exactly on time |
| `BatchRun.OpenStep` | src/common/src/threadpool.cpp:43-70 | every pool step keeps: workers on their way plus notifications owed cover the list, or notifications cover all sleepers |
| `BatchRun.NoIdleWorker` | src/common/src/threadpool.cpp:43-64 | while a task waits and nothing can move, every worker is at a task |
| `BatchRun.TimedStep` | src/common/src/threadpool.cpp:43-70 | under a clock that moves only when nothing else can, every step keeps the pool's and the clock's invariants and the first-free schedule |
| `BatchRun.BatchLateness` | src/common/src/timer.cpp:48-58 | in every run of the pool on one batch handed over in time order: no function starts early, and W times its lateness is at most the running time of the earlier ones |
| `BatchRun.InstantBatchOnTime` | src/common/src/timer.cpp:48-58 | if the earlier functions take no time, it starts exactly at its time point |
| `PatternGrammar.LexObeysGrammar` | src/log/log.cpp:412-497 | the blocks of a pattern are contiguous, spell it out completely and obey the grammar |
| `PatternGrammar.GrammarIsUnambiguous` | src/log/log.cpp:412-497 | a block list that obeys the grammar is what its text reads as |
| `PatternGrammar.LexIffGrammar` | src/log/log.cpp:412-497 | both directions |
| `PatternGrammar.UnclosedIsLast` | src/log/log.cpp:466-492 | only the last block can be an unclosed parameter, so the error is recorded at most once |
| `PatternGrammar.ErrorIffUnclosed` | src/log/log.cpp:486-492 | the error flag is up exactly if some block is an unclosed parameter |
| `PatternGrammar.NameCharacters` | src/log/log.cpp:443 | the characters of a name are the letters, written out, and the closing brace |
| `Formatter.ScannedNext` | src/log/log.cpp:418-493 | one pass of the outer loop appends one block of the grammar and what it means for items, pending literal and error |
| `Formatter.ScannedAll` | src/log/log.cpp:494-497 | at the end the items, the pending literal and the flag are the grammar's reading of the pattern |
| `Formatter.LogFormatter.Scan` | src/log/log.cpp:412-497 | the outer loop with its moving index computes the grammar's tokens and error flag |
| `Formatter.LogFormatter.TakeDirective` | src/log/log.cpp:432-492 | one directive: the block read, and the items, pending literal and flag after it |
| `Formatter.LogFormatter.ScanDirective` | src/log/log.cpp:433-474 | the inner loop reads one block of the grammar and leaves the index just before what follows |
| `Formatter.LogFormatter.ScanDirectiveLoop` | src/log/log.cpp:433-474 | where index, status, name and parameter stand when the inner loop ends; all substrings are in range |
| `Formatter.LogFormatter.AppendItems` | src/log/log.cpp:498-530 | the tokens become items through the table of directives |
| `Formatter.LogFormatter.Parse` | src/log/log.cpp:412-531 | appends the pattern's items and raises the flag exactly if the pattern is in error |
| `Formatter.LogFormatter.constructor` | src/log/log.cpp:408-410 | a new formatter holds exactly its pattern's items and error |
| `PatternPrinter.PrintParse` | src/log/log.cpp:412-497 | for every printable token list, printing and parsing gives the list back without error |
| `PatternPrinter.ImageOfParse` | src/log/log.cpp:412-497 | the token lists some pattern yields without error are exactly the printable ones |
| `PatternPrinter.CanonicalPattern` | src/log/log.cpp:412-497 | a pattern without error and its canonical form read the same |
| `Rendering.RenderByBlocks` | src/log/log.cpp:412-543 | although literals merge and are flushed late, a pattern without error renders block by block |
| `Rendering.RenderIsMeaning` | src/log/log.cpp:412-543 | rendering is the concatenation of the blocks' meanings |
| `Rendering.LexAppend` | src/log/log.cpp:418-493 | two patterns joined read as their readings in a row if and only if the last block of the first fits the second |
| `Rendering.RenderAppendIff` | src/log/log.cpp:418-543 | for such patterns, rendering the join is rendering the parts in turn if and only if the second does not begin with literals and then an unclosed parameter, or the literal pending after the first is nothing but error marks |
| `Rendering.RenderAppend` | src/log/log.cpp:418-543 | in particular if the second part has no error or a directive before it; the join is in error exactly if a part is |
| `Rendering.RenderAppendAfterLiteralOrParameter` | src/log/log.cpp:418-543 | also after a literal character or a closed parameter, if the second pattern is without error |
| `Rendering.ErrorBeforeLiteral` | src/log/log.cpp:486-497 | an unclosed parameter is reported before the literal pending in front of it |
| `Rendering.ErrorBreaksJoining` | src/log/log.cpp:486-497 | a literal joins with an unclosed directive after it if and only if it consists of error marks |
| `Rendering.DirectiveTable` | src/log/log.cpp:498-530 | what each one-letter directive prints, without and with any parameter: it matters to a date only, whose format it is unless it is empty |
| `Rendering.UnknownDirective` | src/log/log.cpp:525-528 | any other name prints the error text, with or without a parameter, and is no error of the pattern; without a name nothing is printed |
| `Rendering.UnclosedPrints` | src/log/log.cpp:486-497 | a parameter that is never closed prints the pattern error, then the literal in front of the directive, and raises the error |
| `Rendering.LiteralPrints` | src/log/log.cpp:419-422 | a pattern without percent signs prints itself |
| `Rendering.PercentRun` | src/log/log.cpp:424-430 | k + 1 percent signs at the end stand for k; a lone one vanishes |
| `DefaultLine.DefaultLine` | src/log/log.h:295 | what the default pattern prints, field by field |
| `BufferRendering.FormatStream` | src/log/log.cpp:539-543 | the stream form writes the items' texts in order |
| `BufferRendering.LineBuffer.FormatItem` | src/log/log.cpp:177-406 | one item on the string and position, and whether the copy stays in range |
| `BufferRendering.LineBuffer.Format` | src/log/log.cpp:533-537 | all items, in order |
| `BufferRendering.PutInRange` | src/log/log.cpp:328-389 | one copy of a literal or a file name is always in range and lengthens the string by its text; any other is in range if and only if position plus text is at most twice the string, which it doubles if it reaches past its end |
| `BufferRendering.PutCharacters` | src/log/log.cpp:177-406 | every character of the string after one copy |
| `BufferRendering.PutWrites` | src/log/log.cpp:177-406 | the text goes to the position, nothing below changes, and how far the string grows |
| `BufferRendering.BufferRefinesStream` | src/log/log.cpp:533-543 | whenever a call stays in range: the prefix is unchanged, the bytes from the old to the new position are the stream's output, the string is at most its first size plus twice the position |
| `BufferRendering.InRangeIffRoom` | src/log/log.cpp:177-406 | a whole call stays in range if and only if there is room, reckoned from sizes and lengths before the call |
| `BufferRendering.FittingFieldsHaveRoom` | src/log/log.cpp:177-406 | there is room if no field but literals and file names is longer than the string at the start |
| `BufferRendering.EmptyBufferOverruns` | src/log/log.cpp:183-190 | an empty string is overrun by any first field that is not empty and neither literal nor file name |
| `BufferRendering.BothFormsRender` | src/log/log.cpp:412-543 | a formatter built from a pattern writes the pattern's rendering in the stream form, and in the buffer form if there is room and not otherwise |
| `ConfigVars.ConfigVar.SetValue` | src/config/config.h:302-312 | nothing for an equal value; otherwise the callbacks in key order up to the first that throws, and the new value only if none does |
| `ConfigVars.ConfigVar.AddListener` | src/config/config.h:314-323 | key 0 for a null callback, otherwise a fresh key appended |
| `ConfigVars.ConfigVar.DelListener` | src/config/config.h:325-328 | exactly this key is removed |
| `ConfigVars.KeysRun` | src/config/config.h:314-333 | over every run on all variables of one type keys are positive, ascending, and belong to one variable each |
| `ConfigVars.CallsRun` | src/config/config.h:302-333 | over every run no callback has been called with a key not handed out yet |
| `ConfigVars.InitialInv` | src/config/config.h:260-270 | variables just created satisfy both |
| `ConfigVars.KeysAreUnique` | src/config/config.h:314-328 | a key is never 0, never handed out again, and deleting it touches no other variable |
| `ConfigVars.ListenersFireInOrder` | src/config/config.h:308-311 | listeners fire in registration order with the old and the new value: all of them and then the value changes, or those up to the first that throws and the value stays |
| `ConfigVars.HistoryStep` | src/config/config.h:302-333 | one operation on any variable keeps a listener's chain exactly if it does not throw after calling it |
| `ConfigVars.ListenerHistory` | src/config/config.h:302-333 | over any run the changes a listener saw lead without gap and without equal pairs from the value at registration to the current one if and only if no SetValue threw after calling it |
| `ConfigVars.ListenerHistoryFromRegistration` | src/config/config.h:302-333 | the same for any listener added to any of a store of new variables, after any operations |
| `ConfigVars.RemovedIsSilent` | src/config/config.h:325-333 | a listener that has been deleted or cleared is never called again, whatever is done to the variables |
| `ConfigTree.ParseAllNodes` | src/config/config.cpp:8-17 | the recursion pushes the flattened tree, in pre-order, behind what the vector held |
| `ConfigTree.EntriesByNavigation` | src/config/config.cpp:8-17 | what the entries of a map contribute to a name is in the one child its first segment names |
| `ConfigTree.FlattenIsNavigation` | src/config/config.cpp:8-17 | the flattened nodes that carry a name are exactly those reached by splitting it at the dots |
| `ConfigOrder.FlattenIsPreOrder` | src/config/config.cpp:8-17 | the list has each node of the tree once, under the keys on its way, a node before what lies below it and siblings in turn |
| `ConfigLoad.ConfigVarManager.LookUp` | src/config/config.h:355-382 | found, wrong type, invalid name or newly registered |
| `ConfigLoad.ConfigVarManager.LoadFromYaml` | src/config/config.cpp:19-43 | the load's effect on every registered variable, with its calls of listeners, and whether it throws |
| `ConfigLoad.ConfigVarManager.LoadNamed` | src/config/config.cpp:23-42 | the loop over the flattened tree |
| `ConfigLoad.ConfigVarManager.LoadEntry` | src/config/config.cpp:24-41 | its body for one entry |
| `ConfigLoad.ConfigVarManager.SetRegistered` | src/config/config.h:285-312 | through the shared pointer only the named variable changes, as SetValue changes it |
| `ConfigLoad.FailureAppliesPrefix` | src/config/config.cpp:23-41 | at the first bad entry exactly the entries before it have been applied; if it is a listener that throws, the value stays and it has been called |
| `ConfigLoad.LoadSucceedsIff` | src/config/config.cpp:23-41 | a load succeeds if and only if no entry has an irregular key, a failing conversion or a refusing listener, judged before the load |
| `ConfigLoad.LastMatchWins` | src/config/config.cpp:23-41 | a variable ends with its last matching node, or unchanged |
| `ConfigLoad.MatchesAreNavigation` | src/config/config.cpp:8-33 | the matches of a name in the whole tree are what navigation reaches |
| `ConfigLoad.LoadIsNavigation` | src/config/config.cpp:8-43 | each registered variable ends with the converted node its dotted name leads to, and is unchanged if there is none |
| `ConfigCase.LowersCapitals` | src/config/config.cpp:28 | lowering turns the k-th capital into the k-th small letter and leaves the rest |
| `ConfigCase.RegularLetters` | src/config/config.h:421 | the letters of a registered name, written out |
| `ConfigCase.SpellingDecides` | src/config/config.cpp:19-43 | after a load a variable has the converted node whose keys spell its name in whatever capitals, and is unchanged if there is none |
| `ConfigCase.CapitalsDoNotMatter` | src/config/config.cpp:19-43 | trees that differ in the capitals of their keys load alike, with values, listener calls and outcome, if the variables' own nodes convert alike |
| `ConfigCase.CapitalsShowIff` | src/config/config.cpp:34-40 | a variable has the same value after both loads if and only if its two nodes convert alike |
| `ConfigCase.CapitalsCanShow` | src/config/config.cpp:34-40 | two trees that differ in one capital inside a variable's node and load to different values |
| `ConfigLoad.LoadKeepsHistory` | src/config/config.cpp:19-43 | a load that succeeds keeps every listener's chain of changes up to the current value |
| `ConfigLoad.FlattenDistinct` | src/config/config.cpp:8-17 | different nodes have different names up to case |
| `ConfigLoad.ReloadIsIdempotent` | src/config/config.cpp:19-43 | loading the same tree again changes no variable and fails where the first load did, and calls no listener if and only if the first load was not stopped by one |
| `LexicalCast.Cast` | src/config/config.h:43-223 | the conversions from text, dispatching on the type |
| `LexicalCast.CastNodes` | src/config/config.h:44-58 | the loop over a sequence node, pushing or inserting |
| `LexicalCast.CastEntries` | src/config/config.h:150-165 | the loop over a map node |
| `LexicalCast.RoundTrip` | src/config/config.h:43-223 | with YAML lawful and scalars stable, to text and back is the identity for vectors, lists, sets and maps nested to any depth |
| `LexicalCast.RoundTripIff` | src/config/config.h:43-223 | and at types without sets exactly then |
| `LexicalCast.SetReadsEach` | src/config/config.h:101-115 | a set whose elements come in its order is read element by element |
| `LexicalCast.VectorReadsEach` | src/config/config.h:44-58 | a vector is read element by element, if and only if each of them is |
| `LexicalCast.MapKeepsFirst` | src/config/config.h:150-165 | a map is read if and only if every entry converts, and then has for each key the value of the first entry with it |
| `LoggerConfigs.ConfigToNode` | src/log/log.cpp:747-774 | the tree that is written |
| `LoggerConfigs.ConfigFromNode` | src/log/log.cpp:702-745 | the configuration that is read, or that reading throws |
| `LoggerConfigs.ConfigFields` | src/log/log.cpp:748-774 | the entries written for a logger: its name, its level, and its appenders if there are any |
| `LoggerConfigs.AppenderFields` | src/log/log.cpp:757-770 | the entries written for an appender |
| `LoggerReading.ReadsLogger` | src/log/log.cpp:702-745 | a node is read as a configuration if and only if it says so in its own name, level, formatter and appenders |
| `LoggerReading.ReadsAppender` | src/log/log.cpp:721-741 | the same for an appender: type, level, formatter, file |
| `LoggerReading.LevelsRead` | src/log/log.cpp:38-54 | the names DEBUG and INFO in any capitals are read as these levels, everything else as UNKNOWN |
| `LoggerReading.LevelsWritten` | src/log/log.cpp:19-36 | levels are written by their names |
| `LoggerConfigs.LevelRoundTrip` | src/log/log.cpp:19-54 | a level comes back from its own text exactly if it is UNKNOWN, DEBUG or INFO |
| `LoggerConfigs.AppenderRoundTrip` | src/log/log.cpp:721-769 | an appender comes back exactly if its level does and it has a file exactly for the file type |
| `LoggerConfigs.ConfigRoundTrip` | src/log/log.cpp:702-774 | a logger configuration comes back exactly if it has no formatter of its own and its levels and appenders come back |
| `LoggerTexts.LoggerSetRoundTrip` | src/log/log.cpp:702-777 | the set of configurations that the variable holds comes back from its own text exactly if each of them does |
| `LoggerTexts.ReadSetsHaveDistinctNames` | src/log/log.cpp:696-698 | whatever is read from a text is in the order of the names, which are distinct |
| `LoggerTexts.ReadSetIsFromText` | src/config/config.h:101-115 | the container conversion reads a text as the set of the configurations it lists |
| `LoggerTexts.ReorderedTextIsSameSet` | src/log/log.cpp:696-698 | texts that list the same configurations in different orders stand for the same set |
| `LoggerSets.CollectSorted` | src/log/log.cpp:696-698 | inserting keeps the order of the names |
| `LoggerSets.CollectFirsts` | src/log/log.cpp:696-698 | of several configurations with one name the first is kept |
| `LoggerSets.LessAtDifference` | src/log/log.cpp:696-698 | names are compared at their first difference |
| `LoggerSets.OrderDoesNotShow` | src/log/log.cpp:696-698 | the order in which configurations with distinct names are inserted does not show |
| `LogRegistry.LoggerManager.OnChange` | src/log/log.cpp:779-830 | the listener's two loops as one function of old set, new set and registry, and whether it throws |
| `LogRegistry.LoggerManager.ApplyNew` | src/log/log.cpp:783-822 | the first loop, which a bad appender leaves at once |
| `LogRegistry.LoggerManager.Configure` | src/log/log.cpp:784-821 | its body for one entry |
| `LogRegistry.LoggerManager.Attach` | src/log/log.cpp:799-821 | its inner loop over the appenders |
| `LogRegistry.LoggerManager.DeleteOld` | src/log/log.cpp:824-829 | the second loop removes exactly the loggers that are no longer configured |
| `LogRegistry.LoggerManager.constructor` | src/log/log.cpp:635-638 | the registry starts with the root logger and its one appender |
| `UsableFormatters.TakesClosedPatterns` | src/log/log.cpp:111-124 | a logger takes a formatter if and only if every parameter in its pattern is closed, and is unchanged otherwise |
| `UsableFormatters.ChangeThrowsIff` | src/log/log.cpp:783-822 | a change throws if and only if an entry that is not word for word in the old set has an appender of an unknown type, a file appender without a file, or a pattern with an open parameter (the root's type 0 aside) |
| `UsableFormatters.OpenIsUnclosed` | src/log/log.cpp:432-492 | a pattern with a directive whose brace is never closed is in error, whatever stands in front of it |
| `UsableFormatters.OpenFormatterThrows` | src/log/log.cpp:815-819 | an appender with such a pattern makes the change throw |
| `Reconciliation.AttachTargets` | src/log/log.cpp:799-821 | the appenders attached are those the entry asks for before its first bad one, in order, with effective levels |
| `Reconciliation.ApplyEntriesPointwise` | src/log/log.cpp:783-822 | the entries of one change, as far as they are reached, do not touch each other's loggers |
| `Reconciliation.ReconcileSyncs` | src/log/log.cpp:783-830 | a change that does not throw leaves the registry in line with the new set: names, levels, appenders; the root logger's first appender stays exactly if its entry is new or unchanged |
| `Reconciliation.ReplaySyncs` | src/log/log.cpp:783-830 | over any run of accepted changes and of fetched loggers from the initial registry: configured loggers are registered as their entries say, every other registered one is new, names not fetched are registered exactly if asked for, and the root logger has its first appender exactly if no change touched its entry |
| `Reconciliation.ReplayFollows` | src/log/log.cpp:640-650 | the same from any registry that follows its configuration |
| `Reconciliation.ReconcileFollows` | src/log/log.cpp:783-830 | one accepted change keeps it, also with loggers registered that no entry asks for |
| `Reconciliation.RegistryFollowsConfig` | src/log/log.cpp:776-830 | over any run of operations on new configuration variables, with loggers fetched at any time: the loggers are those of the current set, each with its entry's level and appenders, and the root logger while it has its first one |
| `Reconciliation.RootLosesStdOut` | src/log/log.cpp:799-805 | after any run the root logger has its first appender if and only if no change touched its entry; afterwards it is what its entry says, or gone unless fetched |
| `Reconciliation.FormatterAfterChain` | src/log/log.cpp:783-830 | after any run each logger's formatter is the last one given since it was last absent in which every parameter is closed |
| `Reconciliation.FormatterDependsOnHistory` | src/log/log.cpp:796-798 | two chains to the same set leave different formatters whenever an entry without one follows an entry with one |
| `AppenderPatterns.SetFormatterMissesAppenders` | src/log/log.cpp:111-124 | a formatter set by pattern never reaches an attached appender |
| `AppenderPatterns.AppendersPrint` | src/log/log.cpp:77-83 | after any run every attached appender prints with its own formatter if its configuration gives one and otherwise with the last one given to its logger in which every parameter is closed; the root logger's first appender prints with the default; none of these patterns has an open parameter |
| `Reconciliation.FailureBreaksSync` | src/log/log.cpp:783-822 | after a change that throws at entry i the registry is in line with the unchanged set if and only if every entry up to i is unchanged, leads to the level and appenders its name already had, or is a new one for an untouched root that asks for nothing |
| `LoadedLoggers.LoggersFollowFiles` | src/log/log.cpp:776-833 | after any sequence of successful loads the loggers are in line with the last node that the files have under the variable's name |
| `LoadedLoggers.AskedForBySequence` | src/log/log.cpp:702-745 | if that node is a sequence, these are the loggers its elements describe |

## Left out

- RoundTripIff: excludes sets, because a set can come back whole although its members' texts have been exchanged; for sets RoundTrip gives the direction that matters. The unordered containers are taken with some fixed order.
- BatchLateness: the pool is idle at the reading and gets this batch only; all steps except sleeping and running a function take no time, as the bound is about the order of the batch.
- HangsIffWorkerBetweenTestAndBlock: "never returns" ranges over runs without spurious wakeups and without new callers of execute, either of which can wake the stranded worker.
- TimerHangsIffWorkerBetweenTestAndBlock: "never returns" ranges over runs in which no worker wakes spuriously; functions return, but for those that wait inside AddTaskAtTimePoint on their own timer.
- RegistryFollowsConfig: assumes that no change makes a listener throw and that nobody edits the registry or its loggers directly, other than by fetching; one change that throws is FailureBreaksSync.
- LoadFromYaml: listeners that set variables or load files themselves while a load is going on are not modelled; which listeners throw depends on the variable and the change only.
- The pool and the timer are transition systems on values, not classes with loops: the loops of Run, LocalRun and both Shutdowns are program counters, so that every interleaving is covered; liveness of Shutdown's polling loop, which depends on callers and tasks, is not stated.
- ThreadPool: `Start` is the initial state; one caller of Shutdown per pool (a second one would join threads already joined), the destructor's call and the contention of Start and Shutdown on the thread mutex are not modelled.
- The flags are read and written sequentially consistently; the races on them as plain booleans, and the race on the key counter shared by all variables of one type, are not modelled.
- Task functions, their exceptions and their futures are opaque; a task is an identity with a time point or a running time, and functions return (a function that shuts down its own pool or timer is not modelled).
- Counters and sizes are unbounded; allocation never fails.
- Dates, numbers and the other field texts of an event are arbitrary strings; a date depends on the item's format only.
- Letters are those of the C locale.
- YAML is a reader and a writer of finite trees that invert each other, with sequences indexed and maps iterated as one expects; what indexing a map or a scalar does is left open, and text that YAML cannot load, keys that are not scalars and anchors are not modelled.
- Loggers and appenders are values in the registry: a caller that holds on to a logger after it has been removed, and the manager's own pointer to the root logger after `root` has been deleted, are not modelled.
- Opening log files, the level filter of Logger::Log, the logging macros, and the ToYamlString methods.
- Thread, Semaphore, Singleton, FSUtil, backtraces, and the directories fiber, net, service and rpc.
