# Verified models of the task-queue and threading layer

This project models the parts of TQLib, the task-queue and threading layer of WebRTC, in which
most of the reasoning is: the wake-up protocols of the task queues, the deadlock detector and the
message queue of threads, the sorted containers and sliding-window statistics, addresses and
their text, sequence numbers and the calendar, the rotating call log, and the dispatcher registry
of the socket server. Each module holds one component, and `dafny verify dfyconfig.toml` checks
them all.

Objects whose methods update their fields are classes; each method states the new state, mostly
as a function of the old one, and the lemmas are about those functions. Protocols between threads
are transition systems: the steps are the lock sections, signals, reads and waits, every
interleaving is a run, and the theorems are about all reachable states of all runs. Integers are
unbounded except where the width matters: sequence numbers and `mod_ops` wrap at their type or
modulus, timestamps at 2^32, address words are 32-bit vectors, the words of an IPv6 text are
16 bits wide.

## The modules

- `SendGraph`: the detector of cycles of blocking sends. The graph is a set of edges; the search
  without a visited set ends because the graph is acyclic, by a measure that weighs a thread more
  than all its successors together, and the check keeps it acyclic because it is exact.
- `StdlibQueue`, `StdlibProtocol`: `TaskQueueStdlib`. The first holds the two queues and what the
  worker picks, the second any number of posters, the deleter and the worker, each with a program
  counter, around the lock and the auto-reset event of `event.cc`.
- `LibeventQueue`: `TaskQueueLibevent` and its pipe, in which at most one wake byte is ever under
  way, and its timers.
- `ThreadQueue`: the message queue of `rtc::Thread` and its heap of delayed messages.
- `FlatTree`, `FlatTreeOrder`: the sorted vector behind `flat_set` and `flat_map`. In the first keys
  are integers, the content of a body is a map, and every operation is specified on it; the second has
  single, hinted and batch insertion over values of any type and any strict weak order.
- `PercentileFilter`, `MovingMax`, `RunningStatistics`: sliding statistics against rank, maximum,
  mean and squared deviations of all the samples. Percentiles are rationals, and the running mean
  is a real number or NaN.
- `SequenceNumbers`: modular differences, the circular order, unwrapping, and the wrap-around
  handler of timestamps.
- `Calendar`: `TmToSeconds` against a calendar that counts days one by one.
- `IpPrefix`: truncation, mask length and order of addresses, bit by bit.
- `InetDigits`, `InetBuffer`, `InetPton`, `InetNtop`: the address printer and parser of `win32.cc`. The
  printer writes into the buffer of its caller, whose content before the call matters.
- `InetDotted`, `InetScan`, `InetForms`, `InetText`: exactly which texts the parser accepts and what
  it reads from them, as grammars that know nothing of its loops, and the round trip.
- `RotatingLog`: the call session log over a directory of named files, and its reader.
- `SocketServer`: the registry of dispatchers, the kernel's interest list, batched event updates
  and the dispatch loop.
- `Options`, `Multisets`: what the others share.

## Where the code and its promises differ

- `PostDelayedTask` of `TaskQueueStdlib` and `PostDelayedHighPrecisionTask` of `Thread` read the
  clock before they take the lock. Delayed tasks run in the promised order exactly if none was
  enqueued after one that belongs behind it had been picked or moved (`DelayedOrderIffNoneLate` of
  either queue); a run that inverts the order is given for each (`DelayedOrderCanBeInverted`), and
  posting promptly rules it out.
- In `TaskQueueStdlib` only the head of the delayed queue is compared with the immediate tasks.
  `OvertakesDueTaskIff` says for every state of the queues when a due delayed task is overtaken by
  an immediate task posted after it, and `DueTaskIsOvertaken` is a run in which it happens.
- `AheadOf` is announced as an order. Two steps ahead are one step ahead exactly under the condition
  of `AheadOfTransitiveIff`; on a modulus of three or more numbers it is not transitive
  (`TransitiveIffTiny`). The comment at the operators allows intervals of up to floor(M/2): on a
  window of exactly half the circle the order is right only if the window does not wrap
  (`WindowOrderedIff`).
- The wrap-around handler of timestamps recovers a timestamp exactly if it lies in the round that
  its two guards take it for (`TimestampsRecoveredIff`, over whole runs); steps are safe wherever they
  start only below 2^28 (`RecoveredFromAnywhereIff`).
- The header of `inet_pton_v4` asks for `ddd.ddd.ddd.ddd` with numbers of up to three digits.
  `ParsesV4Iff` gives the accepted texts: any number of leading zeros and a trailing dot as well.
- `inet_ntop_v6` writes two colons for the compressed run and no NUL after them, so that a text that
  ends in the run (`::`, `fe80::`) is left without its NUL. The buffer holds the text if and only if the
  run does not end at the last word or the character after the text was NUL before the call
  (`LeavesTextIff`). `RoundTripIff` says for every address and every content of the buffer whether
  reading the string there gives the address back; in `RoundTripCanFail` a used buffer turns `::` into
  `::1`. `IPAddress::ToString` zeroes its buffer, and is right for every address (`ToString`).
- `inet_pton_v6` does not follow section 2.2 of RFC 4291 to the letter. `ParsesV6Iff` gives the
  accepted texts: they may start with a single colon, two colons may stand for no zeros at all,
  anything without a colon or an x may stand between `ffff` and the colon if it does not continue
  the number, dotted tails follow `::` and `::ffff:` only, and a group is whatever `sscanf` takes for
  a number, white space, a sign and the prefix `0X` in front of it included (`ScansIff`).
- `CountIPMaskBits` does not look at the words after the first one that is not full
  (`CountsLeadingOnesV6`).
- A socket that is closed and reopened while its events are batched stays registered with the kernel
  for the events it was reopened with, if it wants none when the batch ends and nothing settles it
  since (`ReopeningCanDisagree`). `KernelAgreesIff` says for every run, from the operations of the
  program alone, when the kernel agrees; `ReopenedAgreesIff` is the case of one batch.
- Removing the last sample from `RunningStatistics` divides zero by zero, and the statistics that
  follow are NaN whatever is added (`RemoveSample`, `GetMean`, and `EmptiedStaysNaN` for an example);
  until that happens they are right.
- `GetVariance` promises an unbiased sample variance; it divides by n and not by n - 1.
- `CallSessionFileRotatingStream` promises to preserve the beginning of the log. Opening the stream
  again resets neither the number of rotations nor what has changed with them. `BeginningKeptIff` says
  for every text when its beginning is still there, `BeginningSafeIff` for every number of bytes when it
  is whatever was written: if the stream was opened before it ever rotated, or nothing has been dropped.

## Model

| member | source | states |
|---|---|---|
| SendGraph.EdgeSafeIffNoWayBack | rtc_base/thread.cc:165-177 | in an acyclic graph adding source -> target keeps it acyclic if and only if target does not reach source: the check is exact |
| SendGraph.SuccessorsWeighLess | rtc_base/thread.cc:168-171 | appending all successors of the thread just processed lowers the measure of the unprocessed rest, which is why the search without a visited set ends on an acyclic graph |
| SendGraph.SearchStep | rtc_base/thread.cc:168-171 | one round of the search keeps every listed thread reachable from the target, every successor of a processed thread listed, and gets cheaper |
| SendGraph.SearchDone | rtc_base/thread.cc:168-173 | when the worklist is used up it holds exactly the threads reachable from the target |
| SendGraph.ThreadManager.RegisterSendAndCheckForCycles | rtc_base/thread.cc:158-178 | the check fails if and only if the target reaches the source; otherwise exactly the edge source -> target is added, and the graph stays acyclic |
| SendGraph.ThreadManager.RemoveFromSendGraph | rtc_base/thread.cc:147-156 | removes exactly the edges from and to the thread and keeps the graph acyclic |
| SendGraph.RunStaysAcyclic | rtc_base/thread.cc:147-178 | after any run of sends and removals the graph is acyclic, which is what the next search needs to end |
| StdlibQueue.TaskQueueStdlib.PostTask | rtc_base/task_queue_stdlib.cc:158-163 | the lock section appends the task under the next order number |
| StdlibQueue.TaskQueueStdlib.PostDelayedTask | rtc_base/task_queue_stdlib.cc:168-177 | the lock section puts the task at its place by (fire time, order), keeping the queue sorted |
| StdlibQueue.TaskQueueStdlib.GetNextTask | rtc_base/task_queue_stdlib.cc:188-232 | takes what Pick takes, and leaves the queues as Pick leaves them |
| StdlibQueue.TaskQueueStdlib.SetQuit | rtc_base/task_queue_stdlib.cc:148-151 | the lock section of Delete raises the quit flag and touches nothing else |
| StdlibQueue.Pick | rtc_base/task_queue_stdlib.cc:195-231 | an immediate task is never picked ahead of a due delayed head with a smaller order, a delayed task is never picked early, the worker sleeps only if nothing is runnable, and exactly what is run leaves the queues |
| StdlibQueue.OvertakesDueTaskIff | rtc_base/task_queue_stdlib.cc:200-229 | for every state of the queues: a due delayed task posted before the immediate task that is picked is passed over if and only if it is not the head, the head is due too, and the head was posted after the immediate task |
| StdlibProtocol.WakeUpNotLostKept | rtc_base/task_queue_stdlib.cc:145-279 | every step of every thread keeps a wake-up under way or the worker's decision up to date while it waits |
| StdlibProtocol.ConservationKept | rtc_base/task_queue_stdlib.cc:158-251 | every step keeps each posted entry queued, running or done, exactly once |
| StdlibProtocol.NoLostWakeUp | rtc_base/event.cc:102-107 | in every reachable state in which the worker waits on an unsignalled event and nobody is between leaving the lock and setting it, nothing is runnable, no quit is pending, and the wait gives up at or after the earliest fire time and less than a millisecond late, counting from the clock value the worker decided on |
| StdlibProtocol.EachPostedTaskInOnePlace | rtc_base/task_queue_stdlib.cc:158-251 | in every reachable state each posted entry is in exactly one place and nothing else is anywhere; immediate tasks are picked in posting order |
| StdlibProtocol.NoDelayedTaskEarly | rtc_base/task_queue_stdlib.cc:191-222 | in every run no delayed task is picked before its fire time |
| StdlibProtocol.DelayedOrderIffNoneLate | rtc_base/task_queue_stdlib.cc:168-222 | delayed tasks have been picked in (fire time, order) order if and only if none was enqueued after one that belongs behind it had been picked |
| StdlibProtocol.PromptPostsRunInOrder | rtc_base/task_queue_stdlib.cc:168-180 | with the clock read and the enqueueing in one step delayed tasks run in (fire time, order) order |
| StdlibProtocol.DelayedOrderCanBeInverted | rtc_base/task_queue_stdlib.cc:171-177 | a run in which a poster stalls between reading the clock and taking the lock inverts the order |
| StdlibProtocol.DueTaskIsOvertaken | rtc_base/task_queue_stdlib.cc:200-229 | a run from the start after which the worker passes over a due delayed task for an immediate one posted after it |
| LibeventQueue.TaskQueueLibevent.PostTask | rtc_base/task_queue_libevent.cc:204-218 | appends the task, and asks for a wake byte exactly if nothing was pending |
| LibeventQueue.TaskQueueLibevent.ReadByte | rtc_base/task_queue_libevent.cc:265-276 | takes the first byte of the pipe; a quit byte ends the loop |
| LibeventQueue.TaskQueueLibevent.SwapPending | rtc_base/task_queue_libevent.cc:277-283 | takes all pending tasks, in order, and leaves none |
| LibeventQueue.TaskQueueLibevent.PostDelayedTask | rtc_base/task_queue_libevent.cc:243-256 | on the queue itself a timer is armed at once with the delay; from elsewhere a task is posted that carries the time of the post |
| LibeventQueue.TaskQueueLibevent.PostDelayedTaskOnTaskQueue | rtc_base/task_queue_libevent.cc:227-241 | adds a timer that is due the given delay after now to the list of pending timers |
| LibeventQueue.TaskQueueLibevent.RemoveTimer | rtc_base/task_queue_libevent.cc:298-305 | the loop over the list takes exactly the timer whose task has run from it |
| LibeventQueue.OneWakeByteKept | rtc_base/task_queue_libevent.cc:204-283 | every step keeps run bytes in the pipe, posters about to write and a byte read but not acted on at one in all if a task is pending, at none otherwise |
| LibeventQueue.PosterAlwaysHasRoom | rtc_base/task_queue_libevent.cc:220-224 | in every run a pipe for two bytes has room whenever a poster is about to write |
| LibeventQueue.BatchNeverEmpty | rtc_base/task_queue_libevent.cc:278-283 | in every run the batch swapped out is not empty |
| LibeventQueue.PendingMeansOneWakeUp | rtc_base/task_queue_libevent.cc:204-283 | in every run, while tasks are pending exactly one wake-up is under way |
| LibeventQueue.RunsInPostOrder | rtc_base/task_queue_libevent.cc:204-290 | in every run the tasks run are a prefix of the tasks posted, across batches and whatever the tasks post |
| LibeventQueue.TimersFireOnceNeverEarly | rtc_base/task_queue_libevent.cc:227-305 | in every run, those included in which the task of a timer arms another, a delayed task fires no earlier than its delay after the post, fires at most once, and is on the list if and only if it has not both fired and run |
| ThreadQueue.Thread.PostTask | rtc_base/thread.cc:486-500 | appends the task to the FIFO, unless the thread is quitting |
| ThreadQueue.Thread.PostDelayedHighPrecisionTask | rtc_base/thread.cc:502-527 | puts the message at its place by (run time, number), unless the thread is quitting |
| ThreadQueue.Thread.MoveDue | rtc_base/thread.cc:435-443 | moves exactly the due messages, in order, to the end of the FIFO, and returns the time to the next one |
| ThreadQueue.Thread.TryGet | rtc_base/thread.cc:428-450 | hands out the first task after the due ones have been moved, or tells how long to wait at most |
| ThreadQueue.InsertKeepsSorted | rtc_base/thread.h:399-404 | a message inserted by (run time, number) leaves the others in order |
| ThreadQueue.HandedOnceInPostOrder | rtc_base/thread.cc:419-500 | in every run each task is handed out at most once and only if posted; tasks posted without a delay leave in posting order |
| ThreadQueue.HandedNeverEarly | rtc_base/thread.cc:435-449 | in every run no delayed task is handed out before its run time |
| ThreadQueue.DelayedOrderIffNoneLate | rtc_base/thread.cc:502-527 | delayed tasks were moved in (run time, number) order if and only if none was posted after one that belongs behind it had been moved |
| ThreadQueue.PromptPostsLeaveInOrder | rtc_base/thread.cc:419-527 | with prompt posts, and until the number wraps, delayed tasks leave in (run time, number) order although they pass two queues in bulk |
| ThreadQueue.DelayedOrderCanBeInverted | rtc_base/thread.cc:502-527 | a run in which a poster stalls between reading the clock and taking the lock hands tasks out in inverted order |
| FlatTree.InsertionSort | rtc_base/containers/flat_tree.h:117-126 | the in-place sort leaves the stable sort of what was in the array |
| FlatTree.StableSortKeepsFirst | rtc_base/containers/flat_tree.h:538-545 | sorting keeps, for every key, the first value that carries it |
| FlatTree.ContentDeterminesBody | rtc_base/containers/flat_tree.h:130-136 | a sorted body without repeated keys is determined by its content, so that stating the content states the body |
| FlatTree.InsertOneCorrect | rtc_base/containers/flat_tree.h:1045-1054 | inserting one value keeps the body sorted and unique; the old value with its key wins |
| FlatTree.InsertAllCorrect | rtc_base/containers/flat_tree.h:806-844 | inserting values one by one gives the content in which old values win, then the first new ones |
| FlatTree.BatchCorrect | rtc_base/containers/flat_tree.h:838-844 | sorting and uniquing the appended values and merging them from the first insertion point gives the sorted unique body with the content of old and new values one after another |
| FlatTree.FlatTree.Contains | rtc_base/containers/flat_tree.h:957-963 | finds the key if and only if the content has it |
| FlatTree.FlatTree.EqualRange | rtc_base/containers/flat_tree.h:973-984 | the positions that hold the key: one if the content has it, none otherwise |
| FlatTree.FlatTree.EraseKey | rtc_base/containers/flat_tree.h:897-905 | takes exactly the key from the content and reports whether it was there |
| FlatTree.FlatTree.EraseIf | rtc_base/containers/flat_tree.h:1079-1094 | keeps exactly the values that do not match, in order, and counts the others |
| FlatTree.FlatTree.EmplaceKey | rtc_base/containers/flat_tree.h:1045-1054 | is the insertion of one value, and returns where the key is |
| FlatTree.FlatTree.EmplaceHint | rtc_base/containers/flat_tree.h:1056-1074 | for any hint, the outcome of the insertion without a hint |
| FlatTree.FlatTree.InsertOrAssign | rtc_base/containers/flat_map.h:304-314 | afterwards the content maps the key to the new value, whatever it was |
| FlatTree.FlatTree.AppendUnique | rtc_base/containers/flat_tree.h:516-536 | appends a value whose key is not among the old ones and returns its place among them |
| FlatTree.FlatTree.InsertRange | rtc_base/containers/flat_tree.h:806-844 | batch insertion leaves the body that inserting the values one by one leaves, sorted and unique |
| FlatTreeOrder.RankOrder | rtc_base/containers/flat_tree.h:130-136 | for any strict weak order and any values that occur, one is less than another if and only if its rank is: integer keys stand for the classes of equivalent values |
| FlatTreeOrder.InsertOneIs | rtc_base/containers/flat_tree.h:1045-1054 | over any strict weak order a value is found if and only if an equivalent one is held, and inserting adds the value exactly if it is not, keeping the order |
| FlatTreeOrder.HintMakesNoDifference | rtc_base/containers/flat_tree.h:1056-1074 | over any strict weak order every hint gives the insertion without one |
| FlatTreeOrder.BatchIsOneByOne | rtc_base/containers/flat_tree.h:806-844 | over any strict weak order appending, stable sorting, dropping equivalents and merging gives the body that inserting the values one by one gives |
| FlatTreeOrder.OrderedTree.InsertAllOf | rtc_base/containers/flat_tree.h:806-844 | the batch insertion with the tree's comparator leaves what inserting one by one leaves, in order |
| SequenceNumbers.AddIsModular | rtc_base/numerics/mod_ops.h:21-29 | although its difference wraps around the machine word, Add is addition modulo M |
| SequenceNumbers.SubtractIsModular | rtc_base/numerics/mod_ops.h:31-38 | Subtract is subtraction modulo M |
| SequenceNumbers.SubtractUndoesAdd | rtc_base/numerics/mod_ops.h:21-38 | subtracting what was added gives the number back |
| SequenceNumbers.DiffsAreModular | rtc_base/numerics/mod_ops.h:64-138 | the forward and reverse differences are the distances modulo the modulus in both directions, for a modulus and for the type's own range; the smaller is the distance on the circle |
| SequenceNumbers.AheadOrAtMeans | rtc_base/numerics/sequence_number_util.h:30-48 | all variants: a is ahead of b if less than half way round in front of it, and at exactly half way if it is the larger number |
| SequenceNumbers.AheadOfIsTotal | rtc_base/numerics/sequence_number_util.h:60-65 | of two different numbers exactly one is ahead of the other |
| SequenceNumbers.AheadOfTransitiveIff | rtc_base/numerics/sequence_number_util.h:67-74 | if a is ahead of b and b of c, then a is ahead of c if and only if the two steps together are less than half way round, or exactly half way and c is the smaller number |
| SequenceNumbers.TransitiveIffTiny | rtc_base/numerics/sequence_number_util.h:67-74 | as a relation on all numbers it is transitive if and only if there are at most two of them |
| SequenceNumbers.WindowOrderedIff | rtc_base/numerics/sequence_number_util.h:67-74 | on a window of span k, wherever it starts, it is the order of the unwrapped numbers if and only if 2k < M, or 2k = M and the window does not wrap: the interval of floor(M/2) that the comment allows is safe only there |
| SequenceNumbers.StepIsCongruent | rtc_base/numerics/sequence_number_util.h:95-110 | the unwrapped value is congruent to the value given |
| SequenceNumbers.UnwrapExact | rtc_base/numerics/sequence_number_util.h:95-110 | the next number is recovered from its residue if and only if the step is less than half way round, or exactly half way in the direction the larger number decides |
| SequenceNumbers.SeqNumUnwrapper.Unwrap | rtc_base/numerics/sequence_number_util.h:95-110 | the first value is itself; every later one is a step from the last unwrapped value |
| SequenceNumbers.SeqNumUnwrapper.UnwrapForward | rtc_base/numerics/sequence_number_util.h:112-121 | recovers exactly the next number up to one round ahead |
| SequenceNumbers.SeqNumUnwrapper.UnwrapBackwards | rtc_base/numerics/sequence_number_util.h:123-132 | recovers exactly the next number up to one round behind |
| SequenceNumbers.UnwrapRecoversIff | rtc_base/numerics/sequence_number_util.h:95-110 | over every run: the numbers come back from their wrapped values if and only if the first lies in [0, M) and every step is less than half way round, or exactly half way in the direction the larger residue decides |
| SequenceNumbers.TimestampWrapAroundHandler.Unwrap | rtc_base/time_utils.cc:180-197 | the result and the next reference; a timestamp from before the wrap does not become the reference |
| SequenceNumbers.RecoveredFromAnywhereIff | rtc_base/time_utils.cc:187-196 | a step is recovered from every reference if and only if it is shorter than 2^28 in either direction |
| SequenceNumbers.TimestampsRecoveredIff | rtc_base/time_utils.cc:180-197 | over every run: the timestamps come back from their residues if and only if the first lies in the first round and each later one in the round the guards take it for, seen from the reference the earlier ones leave |
| PercentileFilter.RankIsUnique | rtc_base/numerics/percentile_filter.h:23-25 | only one value has a given rank among samples |
| PercentileFilter.SortedRank | rtc_base/numerics/percentile_filter.h:52-55 | position k of the sorted samples holds the value of rank k |
| PercentileFilter.RankOfMultiset | rtc_base/numerics/percentile_filter.h:52-55 | ranks depend on the multiset of the samples only |
| PercentileFilter.PercentileFilter.Insert | rtc_base/numerics/percentile_filter.h:67-80 | adds the value to the multiset and leaves the iterator at floor(p (n - 1)), duplicates included |
| PercentileFilter.PercentileFilter.Erase | rtc_base/numerics/percentile_filter.h:82-100 | removes one occurrence if there is one and leaves the iterator at its target, also when it pointed at the erased element |
| PercentileFilter.PercentileFilter.UpdatePercentileIterator | rtc_base/numerics/percentile_filter.h:102-109 | moves iterator and index together to floor(p (n - 1)) |
| PercentileFilter.PercentileFilter.GetPercentileValue | rtc_base/numerics/percentile_filter.h:111-114 | the value of rank floor(p (n - 1)) of the samples held, 0 without samples |
| PercentileFilter.MovingPercentileFilter.Insert | rtc_base/numerics/moving_percentile_filter.h:73-83 | the filter holds exactly the last window_size samples |
| PercentileFilter.MovingPercentileFilter.GetFilteredValue | rtc_base/numerics/moving_percentile_filter.h:85-88 | the percentile of the last window_size samples inserted since the last reset |
| PercentileFilter.MovingPercentileFilter.GetNumberOfSamplesStored | rtc_base/numerics/moving_percentile_filter.h:97-100 | the number of samples inserted since the last reset, window_size at most |
| MovingMax.FrontIsMax | rtc_base/numerics/moving_max_counter.h:53-59 | the front of a deque that speaks for the history is the largest sample in the window, though dominated samples were dropped |
| MovingMax.WindowMaxIsUnique | rtc_base/numerics/moving_max_counter.h:43-46 | the definition of the window's maximum leaves no choice |
| MovingMax.MovingMaxCounter.Add | rtc_base/numerics/moving_max_counter.h:69-85 | the history grows by the sample, and the deque goes on speaking for it, strictly increasing in time and decreasing in value |
| MovingMax.MovingMaxCounter.RollWindow | rtc_base/numerics/moving_max_counter.h:102-114 | no sample older than the window stays, and every sample in the window is still dominated by one that stays |
| MovingMax.MovingMaxCounter.Max | rtc_base/numerics/moving_max_counter.h:87-95 | the maximum of all samples added since the last reset with a time in the window, none if there is none |
| RunningStatistics.DescribesMeans | rtc_base/numerics/running_statistics.h:126-140 | the running values fit the samples if and only if they are their mean and the sum of their squared deviations from it |
| RunningStatistics.StateIsOfMultiset | rtc_base/numerics/running_statistics.h:71-80 | any two histories that leave the same multiset of samples leave the same mean and deviations |
| RunningStatistics.RunningStatistics.AddSample | rtc_base/numerics/running_statistics.h:51-60 | the values describe the samples with the new one |
| RunningStatistics.RunningStatistics.RemoveSample | rtc_base/numerics/running_statistics.h:65-78 | the values describe the samples without one occurrence, so that removing undoes adding, unless that was the last sample: then mean and cumulant are NaN from there on; minimum and maximum stay |
| RunningStatistics.RunningStatistics.MergeStatistics | rtc_base/numerics/running_statistics.h:80-100 | the values describe the samples of both, as if added one by one, also when merged with itself |
| RunningStatistics.RunningStatistics.GetMean | rtc_base/numerics/running_statistics.h:126-132 | the mean of the samples, none without samples, NaN once the last sample has been removed |
| RunningStatistics.RunningStatistics.GetVariance | rtc_base/numerics/running_statistics.h:134-140 | the sum of squared deviations from the mean divided by the number of samples, which is not the unbiased variance of the comment; NaN once the last sample has been removed |
| RunningStatistics.EmptiedStaysNaN | rtc_base/numerics/running_statistics.h:65-78 | for any two samples: adding one, removing it and adding the other leaves NaN as the mean |
| Calendar.CountsSeconds | rtc_base/time_utils.cc:199-243 | for every valid date the result is a day-by-day count from 1970-01-01 with Gregorian leap years, in seconds; -1 if and only if the input is invalid |
| Calendar.NextSecondAddsOne | rtc_base/time_utils.cc:199-243 | advancing a date by a second, over any carry, advances the result by one |
| Calendar.SecondsOfTmAt | rtc_base/time_utils.cc:199-243 | every number of seconds is the result for the date that many seconds after the Epoch |
| Calendar.TmAtOfSeconds | rtc_base/time_utils.cc:199-243 | and of no other: counting that many seconds leads back to the date |
| Calendar.MeetsPosixFormula | rtc_base/time_utils.cc:226-242 | the result is that of the formula of POSIX.1-2017 Base Definitions, section 4.16 |
| IpPrefix.TruncateIP | rtc_base/ip_address.cc:366-406 | the shifts and masks over the words give the address with the first `length` bits kept, none for a negative length |
| IpPrefix.KeepsFirstBits | rtc_base/ip_address.cc:366-406 | bit i of the result is set if and only if i is below the length and bit i of the address is set |
| IpPrefix.TruncateTwice | rtc_base/ip_address.cc:366-406 | truncating to a and then b is truncating to the smaller, for all addresses and all lengths |
| IpPrefix.TrickGivesLength | rtc_base/ip_address.cc:440-460 | isolating the lowest set bit and testing it against five masks finds its position |
| IpPrefix.CountIPMaskBits | rtc_base/ip_address.cc:408-461 | the ones of the full words and the position after the last one in the first word that is not full |
| IpPrefix.CountsLeadingOnesV4 | rtc_base/ip_address.cc:412-415 | for IPv4 the result is the plain count of leading ones if and only if the mask is contiguous |
| IpPrefix.CountsLeadingOnesV6 | rtc_base/ip_address.cc:416-431 | for IPv6 it is if and only if the first word that is not full is contiguous |
| IpPrefix.CountsLeadingOnes | rtc_base/ip_address.cc:408-461 | on every contiguous mask, v4 and v6, the result is the count of leading ones |
| IpPrefix.CountOfMask | rtc_base/ip_address.cc:366-461 | counting the bits of a truncated all-ones address gives the length back |
| IpPrefix.WordOrder | rtc_base/ip_address.cc:118-120 | comparing IPv4 addresses as numbers is comparing their network bytes |
| IpPrefix.LessIsStrictTotalOrder | rtc_base/ip_address.cc:101-128 | operator< orders all addresses strictly and totally, and operator> is its converse |
| InetPton.InetPtonV4 | rtc_base/win32.cc:162-198 | the cursor loop computes the reading of the text that `InetDotted.ParsesV4Iff` characterises |
| InetPton.InetPtonV6 | rtc_base/win32.cc:201-312 | the x check, the IPv4 tails and the loop compute the reading of the text that `InetForms.ParsesV6Iff` characterises |
| InetPton.ReadWords | rtc_base/win32.cc:255-312 | the loop over groups and colons, with the count of colons after a compressed run, computes the part of that reading without dotted tails |
| InetNtop.LongestIsFirstLongest | rtc_base/win32.cc:88-106 | the run that is compressed is the first of the longest runs of zeros |
| InetNtop.MarkRuns | rtc_base/win32.cc:88-106 | the first pass marks every zero with its place in its run, and finds the first longest run |
| InetNtop.KeepLongestRun | rtc_base/win32.cc:108-120 | the second pass leaves the marks of that run only |
| InetNtop.InetNtopV6 | rtc_base/win32.cc:83-154 | fails below INET6_ADDRSTRLEN; otherwise the buffer holds the text in groups with the run compressed, or dotted for the two IPv4 forms, then a NUL unless the text ends in the run, then what was there before |
| InetNtop.InetNtopV4 | rtc_base/win32.cc:70-80 | fails below INET_ADDRSTRLEN; otherwise the dotted text and its NUL stand at the cursor, and the rest of the buffer is as before |
| InetNtop.LeavesTextIff | rtc_base/win32.cc:138-153 | for every address and every content before: the string in the buffer is the text if and only if the compressed run does not end at the last word or the character after the text was NUL already |
| InetDotted.ParsesV4Iff | rtc_base/win32.cc:156-198 | a text is read as four bytes if and only if it is four decimal numbers of at most 255, of one or more digits, with dots between them and a trailing dot or not; the bytes are those numbers |
| InetScan.ScansIff | rtc_base/win32.cc:293-297 | the scan of a group takes a whole text if and only if it is white space, a sign, a prefix and hexadecimal digits of four characters at most without the white space, and reads its value modulo 2^16 |
| InetForms.ParsesV6Iff | rtc_base/win32.cc:201-312 | a text is read as eight words if and only if it has one of four forms: eight groups, groups with one run of two colons, a dotted quad after two colons, a dotted quad after ffff; the words are those the form gives |
| InetForms.ReadForm | rtc_base/win32.cc:201-312 | every text that is accepted has one of the forms |
| InetForms.FormIsRead | rtc_base/win32.cc:201-312 | every text of one of the forms of section 2.2 of RFC 4291, and of their extensions here, is accepted and read as its value |
| InetText.RoundTripV4 | rtc_base/win32.cc:68-80 | for every IPv4 address and every content before, reading the string left in the buffer gives the address back |
| InetText.RoundTripV6 | rtc_base/win32.cc:82-312 | reading the string left in the buffer gives back every IPv6 address whose text does not end in the run, and the others if the character after the text was NUL |
| InetText.RoundTripIff | rtc_base/win32.cc:82-312 | for every IPv6 address and every content before: the address comes back if and only if its text does not end in the run, or what stood behind the text is nothing, zero groups up to eight in all, or a dotted quad of zeros after `::` |
| InetText.ReadsAnotherAddress | rtc_base/win32.cc:138-153 | for every address that ends in the run: a single 1 left behind its text makes the string read as the address with 1 as its last word |
| InetText.RoundTripCanFail | rtc_base/win32.cc:138-153 | a buffer in which the address of all zeros leaves the string `::1`, the very one of the loopback address |
| InetText.ToString | rtc_base/ip_address.cc:138-151 | with its zeroed buffer, ToString gives the text of every address, and reading it gives the address back; nothing for an address without family |
| InetText.TextIsUnique | rtc_base/win32.cc:82-154 | two addresses never leave the same string in their buffers, provided that each leaves its text |
| InetNtop.TextFits | rtc_base/win32.cc:82-154 | the text and one character more fit the buffer, so that no snprintf cuts it short |
| RotatingLog.FillingIsUnique | rtc_base/file_rotating_stream.cc:214-232 | the number of bytes written determines which file is being filled |
| RotatingLog.AppendAndRotate | rtc_base/file_rotating_stream.cc:228-232 | filling a file to the last byte turns the files for the bytes so far into the files for the bytes with the part, by one rotation |
| RotatingLog.CallSessionFileRotatingStream.Open | rtc_base/file_rotating_stream.cc:252-262 | at any time: the directory holds one empty file and nothing has been written, while the rotation count, the file size and the rotation index stay |
| RotatingLog.CallSessionFileRotatingStream.RotateFiles | rtc_base/file_rotating_stream.cc:301-326 | the renames move the files up to the rotation index by one, over the one there, leave those beyond it, and start an empty one |
| RotatingLog.CallSessionFileRotatingStream.Write | rtc_base/file_rotating_stream.cc:209-239 | the files hold exactly what they hold for all the bytes written, however the writes were cut |
| RotatingLog.KeepsHeadAndTail | rtc_base/file_rotating_stream.cc:342-385 | the files from the oldest to the newest are all bytes, or the head followed by a contiguous suffix of the rest; the head is the first half of the budget, or nothing if the stream had rotated before it was opened |
| RotatingLog.BeginningKeptIff | rtc_base/file_rotating_stream.h:108-113 | for every text: the first half of the budget is still at the beginning if and only if the stream had not rotated before it was opened, or no file has been dropped, or the text repeats itself where the kept bytes start |
| RotatingLog.BeginningSafeIff | rtc_base/file_rotating_stream.h:108-113 | for every number of bytes: it is, whatever they are, if and only if the stream had not rotated before it was opened or no file has been dropped |
| RotatingLog.StaysWithinBudget | rtc_base/file_rotating_stream.cc:342-385 | the files never hold more than max_total_log_size, and the suffix kept is at least all rotating files but the current one |
| RotatingLog.NamesSortByIndex | rtc_base/file_rotating_stream.cc:328-340 | zero padding makes names sort as text in the order of their indices |
| RotatingLog.ReaderOrder | rtc_base/file_rotating_stream.cc:387-396 | whatever order the directory is listed in, sorting the names downwards gives the files from the last index to the first |
| RotatingLog.ReadsBack | rtc_base/file_rotating_stream.cc:387-422 | the contents in the reader's order are all bytes written, or the head and a contiguous suffix of the rest |
| RotatingLog.FileRotatingStreamReader.ReadAll | rtc_base/file_rotating_stream.cc:408-422 | the buffer holds as much of the contents as fits, in order |
| RotatingLog.FileRotatingStreamReader.GetSize | rtc_base/file_rotating_stream.cc:400-406 | the length of all the contents |
| SocketServer.PhysicalSocketServer.Add | rtc_base/physical_socket_server.cc:1203-1218 | registers a dispatcher under a fresh key and tells the kernel what it wants, which cannot fail; a duplicate changes nothing |
| SocketServer.PhysicalSocketServer.Remove | rtc_base/physical_socket_server.cc:1220-1236 | takes the dispatcher from both maps and from the kernel; an unknown one changes nothing |
| SocketServer.PhysicalSocketServer.UpdateEpoll | rtc_base/physical_socket_server.cc:1515-1545 | by modify, add or delete, the kernel's interest in the descriptor becomes exactly what is wanted |
| SocketServer.PhysicalSocketServer.Close | rtc_base/physical_socket_server.cc:999-1017 | the dispatcher is unregistered, closed and wants nothing; in a batch the events before it count as none |
| SocketServer.PhysicalSocketServer.Create | rtc_base/physical_socket_server.cc:749-763 | closes what is open and registers the new descriptor, if there is one |
| SocketServer.AddedKeeps | rtc_base/physical_socket_server.cc:1474-1495 | in a consistent registry a descriptor that is added is new to the kernel, and the registry stays consistent |
| SocketServer.DoKeeps | rtc_base/physical_socket_server.cc:949-1252 | every operation keeps the maps inverse, descriptors apart and the kernel's entries owned, leaves all other dispatchers alone, and reuses no key |
| SocketServer.BatchFinishedKeeps | rtc_base/physical_socket_server.cc:965-977 | when a batch ends the kernel is told of the events wanted exactly if they differ from those before it, and keeps what it had otherwise |
| SocketServer.RunKeepsKeys | rtc_base/physical_socket_server.cc:1203-1252 | over every run a key given out before leads to the dispatcher it was given to, open on the same descriptor, or nowhere |
| SocketServer.KernelAgreesIff | rtc_base/physical_socket_server.cc:960-1017 | over every run from the start, for every registered dispatcher: the kernel reports the events wanted, in a batch those wanted before it, if and only if no reopening in a batch has enabled events that no later change, end of a batch or reopening has settled; events that are wanted are always reported |
| SocketServer.ReopenedAgreesIff | rtc_base/physical_socket_server.cc:965-977 | after an open socket is reopened in a batch, the kernel agrees when the batch ends if and only if some events are wanted then or the new socket is not a UDP socket |
| SocketServer.ReopeningCanDisagree | rtc_base/physical_socket_server.cc:1003-1013 | a run after which the kernel reports events nobody wants |
| SocketServer.PhysicalSocketServer.DispatchEvents | rtc_base/physical_socket_server.cc:1576-1593 | each key is looked up when its turn comes, in the state the handlers before it have left |
| SocketServer.ReachesItsRegistration | rtc_base/physical_socket_server.cc:1576-1593 | every event reaches the registration whose key and descriptor the kernel returned, whatever the handlers add or remove, and reaches nothing if and only if the handlers before it removed that registration |

## Left out

- System calls, thread scheduling, libevent and the kernel: each appears as the abstract step it
  performs (the pipe as bytes, the event as a flag, epoll as a map, files as strings), and file
  operations succeed.
- Clocks are inputs. They do not run backwards in the protocol runs; overflow of 64-bit times and
  order numbers is not modelled, nor is the overflow of `tm_year` near the end of its range.
- Posted closures are never empty; an empty one would be taken from the queue as if there were
  none.
- The warning phase of `Event::Wait` and spurious wake-ups only repeat the wait; manual-reset
  events are not used by the queues.
- The waiting loop of `Thread::Get` around the lock section, and delivery of a post that races
  with `Quit`.
- Floating-point rounding: the percentile is a rational and the statistics are real.
- RunningStatistics.RunningStatistics.RemoveSample: requires that the sample is present, as its
  comment asks; the infinities that removing another value as the last one leads to are left out.
- Buffering of the log between `Write` and `Flush`, and files with the log's prefix that others
  put into the directory while it is open.
- The other subclasses of `FileRotatingStream`, which keep no head of the stream.
- The erasing and assigning operations of `flat_tree` with keys other than integers, and its
  constructors; the standard library's sort, unique and merge are functions with the properties the
  standard gives them.
- The number a format like `%hx` reads from digits that do not fit is taken modulo 2^16.
- The sockets are values in a map named by address, so that aliasing of dispatcher objects is
  modelled by their addresses only; the wake-up signaler is one more dispatcher whose events do
  not change. Read and write handlers are arbitrary operations of the program.
- The select and poll loops, reading and writing of sockets, name resolution.
- `task_queue_gcd.cc`, `task_queue_win.cc`: their order is mostly the platform's.
- `histogram_percentile_counter.cc`, `string_encode.cc`, `async_resolver.cc`, `moving_average.cc`:
  they would add easier members of the kinds above.
- Exponential filters and averages: exponentials would have to be taken for granted.
