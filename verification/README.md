# Koalja agent: input snapshots, statistics codec, publication

Proofs about the agent that runs next to every Koalja task. Annotated values arrive on the
inputs of a task; the agent collects them into snapshots according to a policy, executes the
task on clones of the snapshot, acknowledges what was executed successfully, and publishes
results on all links of an output. Three parts of it are modelled.

**The input loop.** `SnapshotSpec` says what the operations on a snapshot do to its sequences.
`Snapshot` has the objects themselves: pairs whose sequence is a slice of a backing array that
is re-sliced, appended to and overwritten in place. `InputLoop` is the code the loop runs under
its mutex, on these objects. `LoopSpec` is the whole protocol as a step system: one watcher per
task input, the executor loop under the Auto and Restart launch policies, and any number of
executions. A step is one maximal region under the mutex or one action outside it, so every
interleaving of steps is an interleaving of the program. `Windows`, `StoreInv`, `ExecInv` and
`LoopInv` hold the invariants; `LoopTheorems`, `RunFacts`, `AckTheorems` and `ValueFlow` say
what holds in every reachable state and over whole runs. A value is identified by its watcher and its number there; a callback by
the watcher that supplied it; executions, callbacks and cancellation may turn out any way.

**The codec and the merging of statistics.** `Wire` is the Protocol Buffers wire format
("Encoding": Base 128 Varints, Message Structure, Last One Wins), `StatsSpec` and
`AnnotatedSpec` are the messages as values. `WireIO`, `Tracking`, `TaskTracking` and
`Annotated` are the buffer loops and the message objects, each proved equal to the value
functions. `WireBytes` compares the value functions with a second definition of the encoding,
byte by byte. `Keyed`, `StatsMerge` and `StatsTotals` are the merging of statistics by name.

**Publication.** `Publisher` sets up the links of the outputs, fills in values, and has the
protocol between concurrent Publish calls and the link workers as a step system;
`PublisherTheorems` has its invariants and results, `PublisherRuns` ties them to what the remote
sides replied in a run.

`ToyModel` is the executable specification of the snapshot policies that comes with the design
documents; `ToyAgreement` shows that the input loop executes on what that specification
executes on.

Four results differ from what one might expect of the program:

- The snapshot counters do not always add up to the execution count: an execution is counted as
  succeeded or failed while it is still counted in progress. `CountersAddUp` gives the exact
  condition and `CountersExceed` a run.
- `AckAll` clears callbacks on a copy of each entry only. That no callback is invoked twice rests
  on each clone being executed once, and the proof is by that route (`InvokedAtMostOnce`).
- SwapNew4Old is documented as replacing old values as soon as new ones come in
  (`pkg/apis/koalja/v1alpha1/task.go:82-83`). As coded nothing is ever taken out, so each input
  takes its maximum of values in its life and no more (`SwapRoom`, `SwapPut`); with the lengths
  that validation demands one clone is taken and the watchers then wait for good
  (`SwapClonesOnce`, `SwapGetsStuck`). The model follows the code.
- A clone does not carry the minimum lengths of its inputs (`InputSnapshot.Clone`).

## Model

| member | source | states |
|---|---|---|
| AckTheorems.AckConservation | pkg/agent/task/input_loop.go:190-287 | in every reachable state, under all policies, interleavings and merged inputs, the callback of every stored value is in exactly one place: live, one unfinished clone, invoked, or given up with an execution that failed or after a callback that failed |
| AckTheorems.InvokedAtMostOnce | pkg/agent/task/input_snapshot.go:117-129 | no run invokes a callback for the same value twice |
| AckTheorems.AckFollowsSuccess | pkg/agent/task/input_loop.go:202-217 | every callback invoked is its own value's, for a clone holding the value, after that clone's execution returned without error and uncancelled |
| AckTheorems.AckNeedsExecution | pkg/agent/task/input_loop.go:202-217 | over whole runs: before any callback is invoked, an earlier step executed a clone carrying it, the executor returned nil, and neither the loop nor that run was cancelled at the check |
| AckTheorems.NothingSkipped | pkg/agent/task/input_loop.go:225-247 | the loop never evicts: the skipped counter stays zero in every run |
| RunFacts.AckStopsOnlyAtFailure | pkg/agent/task/input_snapshot.go:117-129 | a clone executed successfully has all its callbacks invoked, unless the one invoked last failed; no earlier one failed |
| RunFacts.GoodRunSucceeds | pkg/agent/task/input_loop.go:202-217 | in any run an execution that returns nil uncancelled is recorded as a success for good, and owes the acknowledgements of its clone |
| RunFacts.RoomDecides | pkg/agent/task/input_loop.go:225-241 | a watcher with a value stores it if its sequence is below the maximum, and sleeps if it is not |
| RunFacts.DroppedOnlyWhenCancelled | pkg/agent/task/input_loop.go:231-241 | a value is dropped only once the loop was cancelled |
| RunFacts.ReceivedIsKept | pkg/agent/task/input_loop.go:221-247 | until then every value received is in the stream of its input or held by its watcher |
| RunFacts.StoppedOnlyWhenCancelled | pkg/agent/task/input_loop.go:112-158 | the executor loop stops only once it was cancelled |
| RunFacts.ClonesGoOn | pkg/agent/task/input_loop.go:112-158 | until the executor loop stops, a clone that is not finished can take a step, or the one the executor is busy with can |
| AckTheorems.OneOwner | pkg/agent/task/input_snapshot.go:79-149 | the callback of a stored value is live or in exactly one clone, never both |
| AckTheorems.TodoFacts | pkg/agent/task/input_snapshot.go:242-250 | whatever order the members of a clone are visited in, AckAll owes exactly the callbacks the clone carries, none twice |
| AckTheorems.LoggedAck | pkg/agent/task/input_loop.go:209-215 | every callback in the log is the one its place in the clone's list calls for, and lies before the number sent |
| LoopTheorems.ClonesFollowStreams | pkg/agent/task/input_loop.go:225-276 | with required length r, clone k shows for every input exactly r stream values, from k*r on under AllNew, from k*min(slide, r) on under SlidingWindow, from the first on under SwapNew4Old, whatever the schedule |
| LoopTheorems.NoCloneMissing | pkg/agent/task/input_loop.go:252-260 | under AllNew and SlidingWindow some stream is too short for the next clone so defined: none that could be taken is missing |
| LoopTheorems.SameStreamsSameClones | pkg/agent/task/input_loop.go:225-276 | with required lengths, under all three policies, two runs that stored the same streams have taken the same clones |
| LoopTheorems.SomeInputHasRoom | pkg/agent/task/input_loop.go:225-242 | under AllNew and SlidingWindow, for any bounds, some input is always below its minimum and has room |
| LoopTheorems.SomeOfferSucceeds | pkg/agent/task/input_loop.go:225-247 | freedom from deadlock under AllNew and SlidingWindow: if every input is offered a value by some watcher, awake or asleep, one of the offers can be stored at once or as soon as its watcher wakes |
| LoopTheorems.SwapRoom | pkg/agent/task/input_loop.go:225-242 | under SwapNew4Old, for any bounds, an input has room if and only if fewer than its maximum of values were ever stored: it takes that many in its life |
| LoopTheorems.SwapPut | pkg/agent/task/input_loop.go:225-247 | under SwapNew4Old a watcher can store the value it holds if and only if its input has not had its maximum of values |
| LoopTheorems.SwapStopsAfterFirst | pkg/agent/task/input_loop.go:225-275 | under SwapNew4Old with required lengths no watcher can store anything in a reachable state after the first clone |
| LoopTheorems.SwapClonesOnce | pkg/agent/task/input_loop.go:225-275 | under SwapNew4Old with required lengths exactly one clone is ever taken, if and when every input has had its values, contrary to the documented replacement |
| LoopTheorems.SwapGetsStuck | pkg/agent/task/input_loop.go:225-275 | a run with one input that takes its clone, and whose next value has arrived and cannot be stored |
| LoopTheorems.AllNewTilesStreams | pkg/agent/task/input_loop.go:258-266 | under AllNew, for any bounds, the clones in clone order followed by the live sequence are exactly the stream of each input |
| LoopTheorems.WindowsNeverMoveBack | pkg/agent/task/input_loop.go:262-276 | under every policy each clone shows a contiguous window; window starts and ends never move back |
| LoopTheorems.EveryValueShown | pkg/agent/task/input_loop.go:258-276 | every stored value is still live or was shown by some clone |
| LoopTheorems.SnapshotCounters | pkg/agent/task/input_loop.go:190-218 | no snapshot counter is negative, waiting counts the clones not started, and the sum exceeds the execution count by the executions between outcome and return |
| LoopTheorems.CountersAddUp | pkg/agent/task/input_loop.go:190-218 | between steps, the counters add up to the execution count if and only if no execution is between its outcome and its return |
| LoopTheorems.CountersExceed | pkg/agent/task/input_loop.go:190-218 | a run in which one execution is counted and the counters add up to two |
| LoopTheorems.OneRun | pkg/agent/task/input_loop.go:112-145 | Auto never runs two clones at once; under Restart at most one call of the executor is running uncancelled, while earlier runs may still be acknowledging |
| LoopTheorems.ExecutedAtMostOnce | pkg/agent/task/input_loop.go:112-145 | no clone is executed twice |
| ValueFlow.ReceivedValues | pkg/agent/task/input_snapshot.go:252-266 | under AllNew, values received are live, in clones not started, in progress, processed, held by a watcher, or dropped on cancellation |
| LoopInv.RunInv | pkg/agent/task/input_loop.go:112-370 | every state of every run satisfies the invariant |
| LoopInv.PutKeeps | pkg/agent/task/input_loop.go:244-284 | storing a value, with or without taking a clone, keeps the invariant |
| LoopInv.ReceiveKeeps | pkg/agent/task/input_loop.go:326-345 | receiving a value keeps the invariant |
| LoopInv.WaitKeeps | pkg/agent/task/input_loop.go:231-241 | a watcher that sleeps, wakes or gives up changes only its own state and the number of dropped values, and the invariant stays |
| LoopInv.HandOverKeeps | pkg/agent/task/input_loop.go:281-284 | handing a clone to the executor loop, outside the mutex and in any order, keeps the invariant |
| StoreInv.PutKeeps | pkg/agent/task/input_loop.go:244-276 | the mutex-held region keeps the windows, the bounds and the shortage of some input |
| StoreInv.CutShort | pkg/agent/task/input_loop.go:252-276 | when a stored value makes every input ready, the input it went to is short again once the snapshot was prepared |
| ExecInv.ExecuteKeeps | pkg/agent/task/input_loop.go:202-216 | the outcome of an execution keeps counters, log and phases in step |
| ExecInv.HandedKeeps | pkg/agent/task/input_loop.go:116-145 | taking over a clone, cancelling the previous run under Restart, keeps them in step |
| ExecInv.SendKeeps | pkg/agent/task/input_snapshot.go:117-129 | sending one callback, failing or not, keeps them in step |
| Windows.WindowMoves | pkg/agent/task/input_snapshot.go:131-142 | a clone moves the window of an input on by all it shows under AllNew, by the slide but no more than it shows under SlidingWindow, not at all under SwapNew4Old |
| Windows.CutKeeps | pkg/agent/task/input_loop.go:258-276 | taking a clone and preparing the live sequence keeps all windows |
| Windows.CallbackInFirst | pkg/agent/task/input_snapshot.go:131-149 | a clone carries the callback of a value exactly when it is the first to show it |
| Windows.Covered | pkg/agent/task/input_snapshot.go:131-142 | no stream position is skipped between windows |
| Windows.NothingLostOrReordered | pkg/agent/task/input_loop.go:264-266 | windows under AllNew tile the stream |
| SnapshotSpec.OwedAppend | pkg/agent/task/input_snapshot.go:117-129 | the callbacks owed by a sequence are those of its parts in order |
| InputLoop.InputLoop.ProcessAnnotatedValue | pkg/agent/task/input_loop.go:221-287 | the mutex-held region on the shared objects is exactly the Put step: it sleeps if and only if there is no room; else the live snapshot, the clone and the counters are those of the step, nothing is evicted and no callback invoked |
| InputLoop.InputLoop.ExecOnSnapshot | pkg/agent/task/input_loop.go:189-218 | an execution as a whole: in-progress statistics are restored, processed statistics grow by the sequence lengths, one outcome is counted, and only a success is acknowledged: all callbacks succeed, or the last one invoked is the only one that failed |
| InputLoop.InputLoop.PrepareAll | pkg/agent/task/input_loop.go:262-276 | the loop over the snapshot inputs prepares every member by policy |
| InputLoop.InputLoop.SnapshotInputs | pkg/apis/koalja/v1alpha1/task.go:123-132 | the loop returns every input not merged into another, each once |
| Snapshot.InputPair.Add | pkg/agent/task/input_snapshot.go:87-115 | entries leave from the front until one more fits below the maximum, each acknowledged first; a callback that fails is the last one invoked and its entry stays; otherwise the value is appended |
| Snapshot.InputPair.MakeRoom | pkg/agent/task/input_snapshot.go:92-108 | how many entries are dropped, which callbacks are invoked, and what the skipped counter becomes |
| Snapshot.InputPair.Append | pkg/agent/task/input_snapshot.go:110-113 | append in place while the backing array has room, else into a new one, adds one entry at the end |
| Snapshot.InputPair.Clone | pkg/agent/task/input_snapshot.go:79-85 | a copy on a backing array of its own, without the minimum length |
| Snapshot.InputPair.Slide | pkg/agent/task/input_snapshot.go:131-142 | exactly count entries leave from the front, all of them if there are no more, without acknowledgement |
| Snapshot.InputPair.RemoveAck | pkg/agent/task/input_snapshot.go:144-149 | every callback is cleared in place, the values stay |
| Snapshot.InputPair.AckAll | pkg/agent/task/input_snapshot.go:117-129 | the callbacks owed are invoked in order; it succeeds if and only if all of them did, and otherwise the last one invoked is the only one that failed; the entries keep their callbacks |
| Snapshot.InputPair.GetSequence | pkg/agent/task/input_snapshot.go:70-77 | the values of the entries in order |
| Snapshot.InputSnapshot.IsReadyForExecution | pkg/agent/task/input_snapshot.go:151-163 | ready if and only if the expected number of inputs is there and each has its minimum |
| Snapshot.InputSnapshot.GetSequenceLengthForInput | pkg/agent/task/input_snapshot.go:165-172 | the length of the sequence, zero for an input not there |
| Snapshot.InputSnapshot.GetSequence | pkg/agent/task/input_snapshot.go:174-180 | the values of an input, none for an input not there |
| Snapshot.InputSnapshot.Clone | pkg/agent/task/input_snapshot.go:182-189 | a clone shows the same entries and shares no pair and no backing array with the original |
| Snapshot.InputSnapshot.Set | pkg/agent/task/input_snapshot.go:200-218 | the pair of one input takes the value or is created for it, with eviction as in Add, and no other input changes |
| Snapshot.InputSnapshot.Delete | pkg/agent/task/input_snapshot.go:220-224 | one input disappears, nothing else changes |
| Snapshot.InputSnapshot.Slide | pkg/agent/task/input_snapshot.go:226-233 | exactly count entries leave the sequence of one input, all of them if there are no more, if the input is there |
| Snapshot.InputSnapshot.RemoveAck | pkg/agent/task/input_snapshot.go:235-240 | one sequence loses its callbacks, if it is there |
| Snapshot.InputSnapshot.AckAll | pkg/agent/task/input_snapshot.go:242-250 | in some order of the members the callbacks owed are invoked; it succeeds if and only if all of them did, and otherwise the last one invoked is the only one that failed |
| Snapshot.InputSnapshot.AddInProgressStatistics | pkg/agent/task/input_snapshot.go:252-258 | every statistics object grows by delta times the lengths of its sequences, wrapping at 64 bits, also when inputs share it |
| Snapshot.InputSnapshot.AddProcessedStatistics | pkg/agent/task/input_snapshot.go:260-266 | the same for the processed counter |
| Snapshot.GrownIs | pkg/agent/task/input_snapshot.go:254-265 | what a statistics object receives is delta times its load, up to a multiple of 2^64 |
| Snapshot.LoadOrder | pkg/agent/task/input_snapshot.go:255-257 | the order in which the members are visited makes no difference to what a statistics object receives |
| Snapshot.LoadAlone | pkg/agent/task/input_snapshot.go:255-257 | statistics used by one input receive the length of its sequence |
| CloneSeparation.Perform | pkg/agent/task/input_snapshot.go:79-149 | after any sequence of Set, Delete, Slide, RemoveAck and Clone on the live snapshot, every clone taken on the way still shows the values and callbacks it was taken with |
| CloneSeparation.PerformOne | pkg/agent/task/input_snapshot.go:200-240 | one such operation changes the live snapshot as specified |
| ToyModel.Task.CheckPolicy | docs/specification/toyModels/task_policy_unified.py:100-131 | accepts if and only if the knobs of every link fit the policy; then minfill is at most maxfill, a slide fits the window, and a swapped window is one value |
| ToyModel.RefusedWhen | docs/specification/toyModels/task_policy_unified.py:102-120 | exactly which knobs each policy refuses |
| ToyModel.Task.UpdateAnnotatedValue | docs/specification/toyModels/task_policy_unified.py:145-181 | polls every link that is not ready; fails if and only if one of these has run out of data |
| ToyModel.Task.AllMinRequirementsMet | docs/specification/toyModels/task_policy_unified.py:135-141 | true if and only if every buffer has its minimum |
| ToyModel.Task.AcceptanceCriteria | docs/specification/toyModels/task_policy_unified.py:185-206 | accepts if and only if all links are ready; otherwise the clock advances and may time out |
| ToyModel.Task.CommitSnapshot | docs/specification/toyModels/task_policy_unified.py:210-259 | executes on the buffers and clears them by policy, except that a timeout on a buffer below its minimum executes nothing and in keep-stream mode clears nothing |
| ToyModel.Task.Turn | docs/specification/toyModels/task_policy_unified.py:267-274 | a turn reads one datum from every link that is not ready and keeps the invariant, with the clock within the timeout at the head of the loop; a timeout neither executes nor takes anything from a buffer |
| ToyModel.Task.Execute | docs/specification/toyModels/task_policy_unified.py:265-274 | after any number of turns the committed tuples are the windows of the delivered values and the buffers hold the rest |
| ToyModel.PollKeeps | docs/specification/toyModels/task_policy_unified.py:148-181 | polling reads one datum and keeps a buffer equal to what was delivered and not yet used up |
| ToyModel.AfterPoll | docs/specification/toyModels/task_policy_unified.py:145-181 | polling, even broken off, keeps all links and all earlier tuples |
| ToyModel.AfterCommit | docs/specification/toyModels/task_policy_unified.py:231-259 | a commit adds the next tuple of windows and leaves some link not ready |
| ToyModel.PartStays | docs/specification/toyModels/task_policy_unified.py:231-239 | a committed part stays the same window as the link is read on |
| ToyAgreement.SameTuples | docs/specification/toyModels/task_policy_unified.py:145-274 | under AllNew, and SlidingWindow sliding by one, tuple k of the specification holds the values of clone k of the loop wherever their streams agree |
| ToyAgreement.SameNumber | docs/specification/toyModels/task_policy_unified.py:265-274 | on equal streams specification and loop have executed equally often |
| Wire.VarintRoundTrip | pkg/tracking/statistics.pb.go:662-670 | reading back an encoded 64-bit number gives it, whatever bytes follow, and consumes exactly its bytes |
| WireBytes.VarintIsBase128 | pkg/tracking/statistics.pb.go:662-670 | the encoding of a number is its base-128 form, low groups first, highest bit on all but the last, no superfluous group |
| WireBytes.ReadingVarints | pkg/tracking/statistics.pb.go:961-977 | reading takes up to ten groups, keeps 64 bits, and fails on open or longer ones, each with its error |
| WireBytes.SkipByWireType | pkg/tracking/statistics.pb.go:1456-1554 | what skip consumes for every wire type |
| WireBytes.SkipGroups | pkg/tracking/statistics.pb.go:1516-1545 | a group ends with its end-group tag |
| WireBytes.FieldRejections | pkg/tracking/statistics.pb.go:978-990 | end-group tags, field numbers below one, wrong wire types, negative and overlong lengths are rejected, each with its error |
| WireBytes.LinkBytes | pkg/tracking/statistics.pb.go:480-513 | the encoding of a LinkStatistics is its fields by their declared numbers and types, defaults left out |
| WireBytes.InputBytes | pkg/tracking/statistics.pb.go:599-631 | the same for TaskInputStatistics |
| WireBytes.OutputBytes | pkg/tracking/statistics.pb.go:643-660 | the same for TaskOutputStatistics |
| WireBytes.TaskBytes | pkg/tracking/statistics.pb.go:525-587 | the same for TaskStatistics with its nested messages |
| WireBytes.AnnotatedBytes | pkg/annotatedvalue/annotatedvalue.pb.go:1709-2060 | the same for Subscription, AckRequest and AnnotatedValueSourceInput, followed by their unknown bytes |
| WireBytes.LinkFields | pkg/tracking/statistics.pb.go:792-955 | each field of a LinkStatistics, read onto any message, replaces that field, defaults included |
| WireBytes.InputFields | pkg/tracking/statistics.pb.go:1203-1357 | the same for TaskInputStatistics |
| WireBytes.OutputFields | pkg/tracking/statistics.pb.go:1358-1455 | the same for TaskOutputStatistics |
| WireBytes.TaskFields | pkg/tracking/statistics.pb.go:957-1202 | the same for TaskStatistics; nested messages are decoded by themselves and appended, or fail the whole |
| WireBytes.AnnotatedFields | pkg/annotatedvalue/annotatedvalue.pb.go:3584-4065 | the same for the annotated-value messages; ids are collected and a repeated subscription is decoded onto the one there is |
| WireBytes.LastOneWins | pkg/tracking/statistics.pb.go:957-1202 | decoding an encoding onto a message replaces every scalar that is not a default and appends the lists |
| Wire.SkipExact | pkg/tracking/statistics.pb.go:1456-1554 | skip consumes exactly one well-formed field, groups nested to any depth included |
| Wire.SkippedIsField | pkg/tracking/statistics.pb.go:1456-1554 | conversely, whatever skip consumes is one well-formed field |
| Wire.DecodeAppend | pkg/tracking/statistics.pb.go:957-1202 | decoding a concatenation is decoding its parts one after the other |
| WireIO.DecodeVarint | pkg/tracking/statistics.pb.go:961-977 | the byte loop reads what the varint specification says, and fails where it says |
| WireIO.SkipField | pkg/tracking/statistics.pb.go:1456-1554 | the skip loop with its recursion returns what the skip specification says |
| WireIO.DecodeField | pkg/tracking/statistics.pb.go:960-1202 | the branches of the Unmarshal loops read what the field specification says |
| WireIO.PutVarint | pkg/tracking/statistics.pb.go:662-670 | the byte loop writes the varint at the offset and nothing else |
| WireIO.SizeOfVarint | pkg/tracking/statistics.pb.go:779-788 | sov is the length of the varint |
| StatsSpec.TaskRoundTrip | pkg/tracking/statistics.pb.go:525-660 | decoding the encoding of any TaskStatistics, nested lists and negative counters included, gives it back |
| StatsSpec.LinkRoundTrip | pkg/tracking/statistics.pb.go:480-513 | the same for LinkStatistics |
| StatsSpec.TaskOnto | pkg/tracking/statistics.pb.go:957-1202 | decoding an encoding into a filled message merges the two |
| StatsSpec.EncodingIsInjective | pkg/tracking/statistics.pb.go:525-587 | different messages have different encodings |
| StatsSpec.ConcatenationIsMerge | pkg/tracking/statistics.pb.go:957-1202 | decoding two encodings in a row gives the first with the non-default scalars of the second and the lists appended |
| StatsSpec.ManyMerge | pkg/tracking/statistics.pb.go:957-1202 | decoding any number of encodings in a row into a message merges them into it, which is the same as merging them beforehand |
| StatsSpec.UnknownIsIgnoredByTask | pkg/tracking/statistics.pb.go:1188-1202 | a well-formed field with an unused number, between any bytes decoded before and after, changes nothing |
| StatsSpec.UnknownIsIgnoredByLink | pkg/tracking/statistics.pb.go:938-955 | the same for LinkStatistics |
| StatsSpec.UnknownIsIgnoredInside | pkg/tracking/statistics.pb.go:1044-1106 | the same inside a nested input or output message, whether or not the rest of it decodes |
| Tracking.LinkStatistics.Size | pkg/tracking/statistics.pb.go:671-695 | Size is the length of the encoding |
| Tracking.LinkStatistics.MarshalTo | pkg/tracking/statistics.pb.go:480-513 | exactly the encoding is written at the offset, within bounds, and nothing else changes |
| Tracking.LinkStatistics.Marshal | pkg/tracking/statistics.pb.go:470-478 | the buffer is filled exactly |
| Tracking.LinkStatistics.Unmarshal | pkg/tracking/statistics.pb.go:792-955 | the message becomes what decoding says, or decoding fails with the same error |
| StatsMerge.LinkSums | pkg/tracking/statistics_helpers.go:22-31 | after any number of additions to a LinkStatistics every counter is the 64-bit sum of everything added, whenever sums on the way overflow, and name and URI are the first non-empty ones |
| StatsMerge.LinkOrder | pkg/tracking/statistics_helpers.go:22-31 | the same additions in any order leave the same counters |
| StatsMerge.PerformLinks | pkg/tracking/statistics_helpers.go:22-31 | the object itself, added to again and again, holds these sums and texts |
| Tracking.TaskInputStatistics.Size | pkg/tracking/statistics.pb.go:738-761 | Size is the length of the encoding |
| Tracking.TaskInputStatistics.MarshalTo | pkg/tracking/statistics.pb.go:599-631 | exactly the encoding is written at the offset |
| Tracking.TaskInputStatistics.Unmarshal | pkg/tracking/statistics.pb.go:1203-1357 | the message becomes what decoding says |
| Tracking.TaskOutputStatistics.Size | pkg/tracking/statistics.pb.go:763-777 | Size is the length of the encoding |
| Tracking.TaskOutputStatistics.MarshalTo | pkg/tracking/statistics.pb.go:643-660 | exactly the encoding is written at the offset |
| Tracking.TaskOutputStatistics.Unmarshal | pkg/tracking/statistics.pb.go:1358-1455 | the message becomes what decoding says |
| Tracking.SortSlice | pkg/tracking/statistics_helpers.go:43-45 | the slice is sorted by name and is a permutation of what it was |
| TaskTracking.TaskStatistics.Size | pkg/tracking/statistics.pb.go:697-736 | Size is the length of the encoding, nested length prefixes included |
| TaskTracking.TaskStatistics.MarshalTo | pkg/tracking/statistics.pb.go:525-587 | exactly the encoding is written at the offset, every nested prefix equal to the bytes that follow it |
| TaskTracking.TaskStatistics.Marshal | pkg/tracking/statistics.pb.go:515-523 | the buffer is filled exactly and never overrun |
| TaskTracking.TaskStatistics.Unmarshal | pkg/tracking/statistics.pb.go:957-1202 | the message becomes what decoding says, with fresh nested objects appended, or fails with the same error |
| TaskTracking.TaskStatistics.InputByName | pkg/tracking/statistics_helpers.go:36-47 | the entry of that name is returned, created with zero counters and sorted in if there was none; other entries stay the same objects |
| TaskTracking.TaskStatistics.OutputByName | pkg/tracking/statistics_helpers.go:50-61 | the same for outputs |
| TaskTracking.TaskStatistics.Add | pkg/tracking/statistics_helpers.go:63-84 | task counters and, entry by entry, input and output counters are added under their names |
| Keyed.BeforeIsBytewise | pkg/tracking/statistics_helpers.go:44 | the order of names is bytewise lexicographic |
| Keyed.AddAllMeaning | pkg/tracking/statistics_helpers.go:76-84 | every counter is the wrapped sum over all sources of that name, duplicates included |
| Keyed.AddAllPermutation | pkg/tracking/statistics_helpers.go:76-84 | the order of the sources makes no difference |
| Keyed.SortedIsUnique | pkg/tracking/statistics_helpers.go:43-46 | strictly sorted entries are determined by names and counters |
| Keyed.AppendAndSort | pkg/tracking/statistics_helpers.go:43-45 | appending a new name and sorting is inserting it in its place |
| StatsMerge.Perform | pkg/tracking/statistics_helpers.go:36-84 | from an empty object, after any sequence of Add, InputByName and OutputByName the entries are the sorted merge of the whole history |
| StatsTotals.PerformTotals | pkg/tracking/statistics_helpers.go:36-103 | then every counter of the task and of each input and output is the 64-bit sum of that counter over everything merged under its name, and the names are in bytewise order |
| StatsTotals.InputReads | pkg/tracking/statistics_helpers.go:87-95 | which sum each of the four input counters holds |
| StatsTotals.OutputReads | pkg/tracking/statistics_helpers.go:98-103 | which sum the output counter holds |
| StatsTotals.TaskReads | pkg/tracking/statistics_helpers.go:70-74 | which sum each of the four task counters holds |
| StatsMerge.HistoryMeaning | pkg/tracking/statistics_helpers.go:36-84 | what that merge holds: strictly sorted names, each counter the sum over the history |
| StatsMerge.HistoryOrder | pkg/tracking/statistics_helpers.go:36-84 | any permutation of the history leaves the same entries and counters |
| StatsMerge.PointerStays | pkg/tracking/statistics_helpers.go:36-47 | a pointer returned for an input stays the entry of its name through any further operations |
| StatsMerge.OutputPointerStays | pkg/tracking/statistics_helpers.go:50-61 | a pointer returned for an output stays the entry of its name through any further operations |
| AnnotatedSpec.AckFixpoint | pkg/annotatedvalue/annotatedvalue.pb.go:3584-3696 | for all bytes AckRequest accepts, decoding, encoding and decoding again gives the same message |
| AnnotatedSpec.SourceFixpoint | pkg/annotatedvalue/annotatedvalue.pb.go:3957-4065 | the same for AnnotatedValueSourceInput |
| AnnotatedSpec.AckKeepsUnknown | pkg/annotatedvalue/annotatedvalue.pb.go:3680-3696 | unknown fields are kept byte for byte in order, and the nested Subscription is the decoding of all its occurrences in a row |
| AnnotatedSpec.SubscriptionKeepsUnknown | pkg/annotatedvalue/annotatedvalue.pb.go:3060-3077 | unknown fields of a Subscription are kept in order |
| AnnotatedSpec.SourceKeepsUnknown | pkg/annotatedvalue/annotatedvalue.pb.go:4048-4065 | unknown fields of an AnnotatedValueSourceInput are kept in order |
| AnnotatedSpec.AckRestored | pkg/annotatedvalue/annotatedvalue.pb.go:1920-1945 | a message whose unknown bytes are well-formed unknown fields is restored from its encoding |
| AnnotatedSpec.SourceRestored | pkg/annotatedvalue/annotatedvalue.pb.go:2030-2060 | the same for AnnotatedValueSourceInput |
| AnnotatedSpec.AckNotLonger | pkg/annotatedvalue/annotatedvalue.pb.go:2463-2481 | encoding what was decoded takes no more bytes than were read |
| AnnotatedSpec.SourceNotLonger | pkg/annotatedvalue/annotatedvalue.pb.go:2525-2545 | the same for AnnotatedValueSourceInput |
| Annotated.Subscription.MarshalTo | pkg/annotatedvalue/annotatedvalue.pb.go:1709-1723 | exactly the encoding is written at the offset |
| Annotated.Subscription.Unmarshal | pkg/annotatedvalue/annotatedvalue.pb.go:3008-3077 | the message becomes what decoding says |
| Annotated.AckRequest.Size | pkg/annotatedvalue/annotatedvalue.pb.go:2463-2481 | Size is the length of the encoding |
| Annotated.AckRequest.MarshalTo | pkg/annotatedvalue/annotatedvalue.pb.go:1920-1945 | exactly the encoding is written at the offset |
| Annotated.AckRequest.Marshal | pkg/annotatedvalue/annotatedvalue.pb.go:1910-1918 | the buffer is filled exactly |
| Annotated.AckRequest.Unmarshal | pkg/annotatedvalue/annotatedvalue.pb.go:3584-3696 | the message becomes what decoding says, the nested object updated in place |
| Annotated.AnnotatedValueSourceInput.Size | pkg/annotatedvalue/annotatedvalue.pb.go:2525-2545 | Size is the length of the encoding |
| Annotated.AnnotatedValueSourceInput.MarshalTo | pkg/annotatedvalue/annotatedvalue.pb.go:2030-2060 | exactly the encoding is written at the offset |
| Annotated.AnnotatedValueSourceInput.Marshal | pkg/annotatedvalue/annotatedvalue.pb.go:2020-2028 | the buffer is filled exactly |
| Annotated.AnnotatedValueSourceInput.Unmarshal | pkg/annotatedvalue/annotatedvalue.pb.go:3957-4065 | the message becomes what decoding says |
| Publisher.NewOutputPublisher | pkg/agent/task/output_publisher.go:58-87 | succeeds if and only if every output has addresses, and gives every output one link per comma-separated address |
| Publisher.JoinIsInjective | pkg/agent/task/output_publisher.go:68 | the addresses are determined by the comma-separated list |
| Publisher.Draft.FillBlanks | pkg/agent/task/output_publisher.go:186-211 | a blank id, time, source task and source output become the fresh id, the clock, the task and the output; with a snapshot and no source inputs given there is one per input of the task with the ids of the snapshot; everything given is kept |
| PublisherTheorems.AcceptedByAll | pkg/agent/task/output_publisher.go:140-236 | a call that returned true has had its value taken exactly once by every link of its output, and that value is the one given with its blanks filled in as FillBlanks says |
| PublisherTheorems.RefusedByAll | pkg/agent/task/output_publisher.go:178-184 | a call that returned false has had its value taken by no link at all, and has a refusal recorded |
| PublisherTheorems.AcceptedIffAllAgree | pkg/agent/task/output_publisher.go:178-184 | a call is accepted if and only if all answers recorded are yes |
| PublisherRuns.AnswersAreReplies | pkg/agent/task/output_publisher.go:253-269 | a yes is recorded for a link if and only if in the run its query for this call went through and was allowed, a no if and only if it failed or was not allowed |
| PublisherRuns.AcceptedIffAllAllow | pkg/agent/task/output_publisher.go:147-184 | a call that has returned was accepted if and only if every link of its output allowed it in the run, and refused if and only if one did not |
| PublisherRuns.PublishedOnSuccess | pkg/agent/task/output_publisher.go:270-283 | the number of publications of a link is the number of its calls that succeeded, the number lost that of those that failed |
| PublisherTheorems.PublishedInOrder | pkg/agent/task/output_publisher.go:251-288 | what a link published is an in-order subsequence of what it took, none twice; each delivery was published, lost with a failed publication, or is being published |
| PublisherTheorems.PublishedCounted | pkg/agent/task/output_publisher.go:270-283 | the published counter of an output is the number of publications of all its links |
| PublisherTheorems.OnlyUnknownOutputsFail | pkg/agent/task/output_publisher.go:142-145 | without cancellation exactly the calls for an unknown output fail, and others involve one link per address |
| PublisherTheorems.CallsGoOn | pkg/agent/task/output_publisher.go:140-303 | absence of deadlock: while a call is under way, some step of its output other than a new call is enabled |
| PublisherTheorems.WorkRunsOut | pkg/agent/task/output_publisher.go:140-303 | in any run, without new calls for an output, the steps of that output are bounded by the work ahead of it, so its calls end |
| PublisherTheorems.CallCanFinish | pkg/agent/task/output_publisher.go:140-303 | from every reachable state some further steps end any given call |
| PublisherTheorems.RunInv | pkg/agent/task/output_publisher.go:140-303 | every state of every run satisfies the invariant |
| PublisherTheorems.AnswerKeeps | pkg/agent/task/output_publisher.go:253-269 | recording an answer keeps the invariant |
| PublisherTheorems.HandKeeps | pkg/agent/task/output_publisher.go:218-235 | handing over a value keeps the invariant |
| PublisherTheorems.PublishKeeps | pkg/agent/task/output_publisher.go:270-283 | a publication, successful or lost, keeps the invariant |

## Left out

- Custom launch policy: `runExecWithCustomLaunchPolicy`, `processExecQueue`'s third branch and `inputSnapshotForTaskSnapshot` depend on the snapshot service.
- gRPC clients, subscriptions, retries with their timeouts, logging and pod annotations: receiving, executing, acknowledging and publishing are steps that may succeed or fail; a callback is identified by its watcher, not by the connection it was made on.
- Regions under the mutex are single steps; the channel hand-over is one step of sender and receiver; the beginning of an execution, the counting of its outcome and its return are one step each.
- LoopTheorems.CountersAddUp: is about states between these steps; within one, the source updates its counters by separate atomic additions.
- `executionCount` is unbounded in the model, a 32-bit counter in the source; the counters of the step systems are unbounded, those of the objects wrap at 64 bits.
- Snapshot.InputPair.Append: does not model the capacity Go's append chooses, only that growing moves to a new array.
- Callback context cancellation inside `AckAll` and `Add`: a cancelled context shows as a failing callback.
- LoopTheorems.SwapClonesOnce: is stated for required lengths, which validation demands of SwapNew4Old; for other bounds SwapRoom and SwapPut say how many values are ever stored, not how many clones are taken.
- TaskTracking.TaskStatistics.Add: takes the source as a value, so adding an object to itself is not modelled.
- Tracking.SortSlice: stands for sort.Slice by its contract; entries have distinct names, so stability does not matter.
- The varint, tag and length loops that the generated code repeats in every field are modelled once, as methods of `WireIO`.
- WireIO.DecodeField: does not model index additions that wrap near 2^63. There the source computes a negative index and panics on slicing; the model reports a truncated buffer.
- WireIO.SkipField: does not model such a wrap either. At the top level the source then reports an invalid length, inside a group it indexes out of range; the model reports a truncated buffer.
- Tracking.LinkStatistics.Unmarshal: has the same limit, and so have the Unmarshal methods of the other messages.
- TaskTracking.TaskStatistics.Unmarshal: has the same limit.
- Messages are shorter than 2^63 bytes, as Go's int demands of every buffer length.
- UTF-8 validity, reflection, gzipped descriptors, deterministic marshalling and nil receivers of the generated code.
- The other generated messages repeat the same scheme; `types.Timestamp` is not part of this model.
- ToyModel.Task.Execute: requires keep-stream mode and fills of at least one; a task that flushes on timeout loses values, and what CommitSnapshot states of flushing is all that is said of it.
- ToyModel.Task.Turn: requires keep-stream mode for the same reason.
- ToyModel.Task.CheckPolicy: does not model the merge policy.
- ToyModel.Task.UpdateAnnotatedValue: does not model the merge policy.
- ToyModel.Task.CommitSnapshot: does not model the merge policy, nor the text that is printed.
- Publisher behaviour under cancellation, and publications that reach the remote side although the call reports an error.
- PublisherTheorems.PublishedInOrder: counts values lost with a failed publication but says nothing about recovering them, because the source drops them.
- Validation of task specifications is assumed as far as `ValidConfig` states it.
