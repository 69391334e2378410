# Verification of the ollama exporter's stateful cores

This project models, in Dafny 4.11, the parts of the exporter in which many steps have to add up
to something that no single function says:

- **The response observer.** A byte-at-a-time JSON recognizer with bounded memory
  (`JsonMachine`, class `JsonFields.JsonFields`) and the response body around it that
  understands event streams (`SseMachine`, class `ResponseBody.ResponseBody`). Main results: the
  recognizer accepts exactly the streams of JSON objects of RFC 8259 within its limits and
  reports of each object exactly the last value at each selected path; the reason for which it
  refuses any other input is one that can be read off the input; the byte machine for
  event streams equals its batch meaning (normalize line endings, split lines, split events,
  read each event); what the owner of a body is told, outcome and reason included, depends only
  on the bytes read and on how reading ended, not on how the bytes were cut into reads. The
  counts that are then recorded are the integers whose decimal texts the response holds (`Usage`).
- **Remote write.** The ring queue, the circuit breaker with its in-place pruned window, the
  retry loop, the loop that drains a closed queue, and every interleaving of the flush loop
  with the sender (`Queue`, `Breaker`, `Sender`, `Pipeline`). Main results: samples are conserved at
  every step of every run, nothing is left behind after shutdown, the drain is bounded, an
  attempt is followed by another exactly as long as attempts and time are left, none
  begins while an opened breaker cools down, and pruning loses nothing that counts.
- **The model poller.** Its gauges and counters agree with the history of snapshots, exactly
  when no model that is newly loaded is listed twice; memory, events and what is remembered of a
  model follow each snapshot (`PollerSpec`, `Poller`).
- **Label sets and series.** Merged labels are canonical, the series sent are pairwise
  distinct, and they carry exactly the numbers gathered (`Labels`, `Gather`).
- **The configuration parser.** The indentation-stack parser reads every layout of a tree, with
  plain or quoted values, deeper indents, comments and blank lines, as that tree, and reads back
  what a canonical printer writes, for exactly which trees (`YamlText`, `YamlLines`, `YamlTree`,
  `Yaml`, `YamlLayout`, `YamlRoundTrip`, `YamlImage`, `YamlExact`).

Code that works by updating fields is modelled by classes and loops, each method proved equal to
a function on the abstract state; the theorems are about these functions. `Rfc8259` is an
independent definition, written without any machine, and `JsonSpelling` says which characters
of a JSON string spell a text. In `SseMeaning` the structure of lines and
events is independent, while the JSON text of an event is read by the recognizer; `SseTheorems`
and `SseReports` then state the results without it. `hide` statements in proofs only keep
definitions that a proof does not need out of the solver's sight.

## Model

| member | source | states |
|---|---|---|
| JsonTheorems.Recognizes | internal/collector/streamjson.go:115-265 | A fresh recognizer is complete after a byte string if and only if the string is a stream of JSON objects (RFC 8259, sections 2 to 7, white space anywhere) nested at most 64 deep whose selected values take at most 4096 bytes; unselected values and field names may be of any length |
| JsonTheorems.Reports | internal/collector/streamjson.go:115-265 | On such a stream it reports one map for each root object, in order, ends as it began, and has noted a skipped field name exactly if one is longer than 128 bytes |
| JsonTheorems.ReportsLast | internal/collector/streamjson.go:37-62 | A reported map binds a path to raw bytes if and only if the path is one of the sixteen and the bytes are the last occurrence in document order at exactly that location |
| JsonTheorems.ReportsTokens | internal/collector/streamjson.go:84-99 | What is reported at a path is a whole JSON string, number or literal name, or an empty pair of brackets |
| JsonReasons.ReasonMeans | internal/collector/streamjson.go:355-363 | Of any input that is no stream of objects within the limits, the reason given is one of four, each said of the bytes alone |
| JsonReasons.DeepMeans | internal/collector/streamjson.go:216-233 | `depth_limit` if and only if somewhere a value may stand, a bracket opens one there, and no continuation is a stream of objects within the limits |
| JsonReasons.LongMeans | internal/collector/streamjson.go:84-92 | `selected_value_limit` if and only if somewhere a value may stand, a token of more than 4096 bytes ends behind that place, and no continuation is within the limits |
| JsonReasons.IncompleteMeans | internal/collector/streamjson.go:355-363 | The recognizer has not failed if and only if the input can be continued to a stream of objects within the limits, or ends inside the token of a value |
| JsonReasons.SkipMeans | internal/collector/streamjson.go:75-83 | It is noted that a field name was skipped if and only if the input, refused or not, holds a string of more than 128 bytes where a field name may stand |
| JsonReasons.PlaceMeans | internal/collector/streamjson.go:209-245 | It awaits a value exactly where the input can be followed by a line feed, a zero and a comma |
| JsonReasons.Closable | internal/collector/streamjson.go:163-265 | From every state between tokens, at any depth, some continuation completes a stream of objects |
| JsonReasons.Decomposed | internal/collector/streamjson.go:124-162 | Inside a token, the input is a part after which a name or a value is awaited, and the beginning of one token, of which the state keeps the clipped bytes |
| JsonTheorems.ReachableBounded | internal/collector/streamjson.go:8-12 | After any input, a recognizer that has not failed: at most 64 frames, 128 bytes of a field name, 4096 bytes of a value, and 16 retained fields of at most 4096 bytes |
| JsonFields.JsonFields.RetainsLittle | internal/collector/streamjson.go:8-35 | The object that the methods update retains no more than that at any time, failed or not; every method keeps it |
| JsonMachine.StepInv | internal/collector/streamjson.go:120-264 | Every byte keeps the bounds and the well-formedness of the frame stack |
| JsonMachine.FieldCount | internal/collector/streamjson.go:37-43 | A map of selected fields has at most sixteen entries |
| JsonMachine.StepGrows | internal/collector/streamjson.go:120-264 | A byte completes at most one object; reported objects and the note on field names are never taken back |
| JsonMachine.DeadSticks | internal/collector/streamjson.go:121-123 | A failed recognizer ignores all further input |
| JsonMachine.RunAppend | internal/collector/streamjson.go:115-119 | Feeding two pieces is feeding their concatenation |
| JsonContainers.RunDocument | internal/collector/streamjson.go:120-265 | Running over the printed form of any document within limits, from any state ready for a root object, reports exactly what the document holds and returns to such a state |
| JsonContainers.RunValue | internal/collector/streamjson.go:209-245 | From any value position, the printed form of a value followed by a delimiter leads to the state after the value, with its selected occurrences recorded |
| JsonContainers.RunMembers | internal/collector/streamjson.go:177-208 | The same for the members of an object |
| JsonContainers.RunElems | internal/collector/streamjson.go:195-214 | The same for the elements of an array |
| JsonForward.RunString | internal/collector/streamjson.go:124-152 | A string token of any length is stored up to its limit and ends in the state after a field name or a value |
| JsonForward.RunBare | internal/collector/streamjson.go:153-162 | A number or literal name ends on the delimiter after it, which is then handled as structure |
| JsonForward.UnquoteString | internal/collector/streamjson.go:80-82 | The field name recorded is the decoded string |
| JsonForward.UnquoteMeans | internal/collector/streamjson.go:80-82 | A token is decoded to a text if and only if it is a JSON string whose characters are those of the text |
| JsonSpelling.TextMeans | internal/collector/responsebody.go:60-61 | A token is decoded to an ASCII text if and only if it is a JSON string that spells it: each character stands for itself, is escaped as section 7 of RFC 8259 lists, or is given by its code in four hexadecimal digits |
| JsonBackward.AcceptedDocument | internal/collector/streamjson.go:120-265 | Every input after which the recognizer is complete can be read as a document within limits that prints exactly that input |
| JsonBackward.AcceptedValue | internal/collector/streamjson.go:209-245 | Every accepted input at a value position begins with a well-formed value within limits, and the rest is accepted after it |
| ScalarAutomaton.AcceptsScalars | internal/collector/streamjson.go:267-353 | The scalar automaton accepts exactly the numbers of RFC 8259 section 6 and the literal names of section 3, of any length |
| ScalarAutomaton.TokenAgrees | internal/collector/streamjson.go:86-98 | On a token that was not truncated, whole-token validation and the automaton agree |
| Selection.DottedInjective | internal/collector/streamjson.go:44-62 | Joining names without dots is injective |
| Selection.SelectedIsListed | internal/collector/streamjson.go:37-62 | A location is selected exactly when its names are one of sixteen lists; array elements, names with a dot and longer paths never are |
| Selection.RecordIsLast | internal/collector/streamjson.go:86-94 | Writing occurrences one after the other keeps, at each selected path, the last one, and nothing else |
| JsonFields.JsonFields.Byte | internal/collector/streamjson.go:120-249 | The method equals one step of the machine, the second handling of a delimiter included, terminates, and keeps the limits on what is retained, of a failed recognizer too |
| JsonFields.JsonFields.Feed | internal/collector/streamjson.go:115-119 | Feeding a chunk equals running the machine over it, and keeps the limits |
| JsonFields.JsonFields.Path | internal/collector/streamjson.go:44-62 | The path is a wanted one exactly for selected locations, and is then the joined names |
| JsonFields.JsonFields.Append | internal/collector/streamjson.go:63-73 | Token storage is cut at 128 or 4096 bytes and remembers that it was |
| JsonFields.JsonFields.ScalarDone | internal/collector/streamjson.go:74-107 | A finished token becomes a field name or a recorded value, or fails the input |
| JsonFields.JsonFields.KeyDone | internal/collector/streamjson.go:75-83 | A field name is decoded, or skipped and noted if it was cut |
| JsonFields.JsonFields.ValueScalarDone | internal/collector/streamjson.go:85-99 | Only a selected value can fail for its length; it is stored under its path if it is valid |
| JsonFields.JsonFields.ScalarByte | internal/collector/streamjson.go:269-347 | The nested switch over number and literal states equals one step of the automaton |
| JsonFields.JsonFields.StringByte | internal/collector/streamjson.go:124-152 | A byte inside a string equals one step of the machine |
| JsonFields.JsonFields.OpenByte | internal/collector/streamjson.go:216-233 | Opening an object or array records a selected path and fails at depth 64 |
| JsonFields.JsonFields.StructureByte | internal/collector/streamjson.go:163-248 | A byte between tokens equals one step of the machine |
| JsonFields.JsonFields.Close | internal/collector/streamjson.go:250-264 | Closing a frame checks its kind and hands over a root object |
| JsonFields.JsonFields.FailureReason | internal/collector/streamjson.go:355-363 | The reason is that of the abstract state |
| SseRefinement.SseMeans | internal/collector/responsebody.go:66-153 | The byte machine, flushed at the end of input, has exactly the batch meaning of the whole stream |
| SseRefinement.LineEndings | internal/collector/responsebody.go:127-140 | Deferring a carriage return by one byte equals normalizing CR, LF and CRLF beforehand |
| SseRefinement.SseRunLines | internal/collector/responsebody.go:88-123 | After any bytes the state is that of the complete lines, and inside the last line |
| SseRefinement.LinesToEvents | internal/collector/responsebody.go:66-123 | After any lines the state is that of the complete events, and inside the last event |
| SseRefinement.DispatchMeans | internal/collector/responsebody.go:66-87 | Dispatching an event gives its data lines their meaning: a terminal marker, or a JSON text of at most one object |
| SseRefinement.FinishLines | internal/collector/responsebody.go:147-153 | The flush at the end finishes an unfinished line and event as if they had been ended |
| SseTheorems.StreamCounts | internal/collector/responsebody.go:154-162 | An event stream counts as an inference if and only if every event is good and some event is final, said of its text alone: a final event is the marker, or its object has `true` as last value at `done`, or as last value at `type` a string that spells `message_stop` |
| SseTheorems.PlainCounts | internal/collector/responsebody.go:154-162 | Any other response counts if and only if it is a non-empty stream of objects within limits, none with an error field |
| SseTheorems.StreamSample | internal/collector/responsebody.go:52-87 | The sample of an event stream that counts is the override, in order, of the fields of its events' objects |
| SseTheorems.PlainSample | internal/collector/responsebody.go:39-65 | The sample of any other response that counts is the override, in order, of the fields of its root objects |
| SseTheorems.EventEffect | internal/collector/responsebody.go:52-87 | An event leaves the response unfailed exactly if it is good, and makes it terminal exactly if it is final |
| SseTheorems.EventsEffect | internal/collector/responsebody.go:52-87 | The same for any sequence of events |
| SseTheorems.FinishesMeans | internal/collector/responsebody.go:59-64 | The fields of an object make a response terminal if and only if the last value at `done` is `true`, or the last value at `type` is a string that spells `message_stop` |
| SseTheorems.DoneMeans | internal/collector/responsebody.go:66-108 | A text in brackets is the terminal marker if and only if it is `[DONE]` and white space, and all but its last byte take less than 32 bytes |
| SseTheorems.SampleTokens | internal/collector/responsebody.go:52-65 | Every value in a sample that is handed over is a whole JSON token or an empty pair of brackets |
| SseReports.StreamReport | internal/collector/responsebody.go:154-162 | An event stream is reported as `skipped`, `incomplete` if all its events are good and none is final, and as `failed` if some event is not good, for the reason of the first such event, said of its data alone |
| SseReports.PlainReport | internal/collector/responsebody.go:154-162 | Any other response is reported as `failed`, `upstream_error` if an object of a prefix of it has an error field, or else as `failed` for the reason for which it is no stream of objects, and as `skipped`, `incomplete` if it is white space |
| SseReports.EventFails | internal/collector/responsebody.go:66-87 | An event that is not good fails the response, unless something failed it before, for its own reason: `malformed` for other text in brackets and for two objects, the recognizer's reason for data that is no stream of objects, `upstream_error` otherwise |
| SseReports.ReportedPrefix | internal/collector/streamjson.go:250-264 | The objects that have been reported of any input, refused or not, are those of a prefix of it that is a stream of objects |
| ObserverSession.ExactlyOnce | internal/collector/responsebody.go:124-188 | Over any reads and closes: the sample is handed over at most once, and exactly at a clean end whose meaning counts; at most one result is reported, exactly one after a terminal read or a close, and it is the first one due; a close is early exactly if no read before it has ended the input |
| SseReports.ReportedFromText | internal/collector/responsebody.go:124-188 | Over any reads that end cleanly and are not closed before: the one result is the owner's if the sample is handed over, and otherwise outcome and reason as the text gives them |
| SseReports.NoticedFromText | internal/collector/responsebody.go:189-197 | At a clean end a skipped field name has been noticed if and only if the text of the response, or the data of one of its events that is no marker, holds a field name of more than 128 bytes |
| ObserverSession.Fragmentation | internal/collector/responsebody.go:124-169 | Two ways of cutting the same body into reads give the same samples, results and tally, the note on field names included |
| ObserverSession.DecisionMeans | internal/collector/responsebody.go:147-162 | At a clean end the decision is that of the batch meaning |
| ObserverSession.SessionOutcome | internal/collector/responsebody.go:124-188 | The same from any state that is still reading |
| ResponseBody.ResponseBody.Read | internal/collector/responsebody.go:124-169 | One read equals one step of the session, whatever the chunk and however it ends |
| ResponseBody.ResponseBody.Close | internal/collector/responsebody.go:170-174 | Closing closes the source once and reports a result only if there was none |
| ResponseBody.ResponseBody.Merge | internal/collector/responsebody.go:52-65 | Fields overwrite those of the sample unless there is an error field; `done` or a `message_stop` type makes the response terminal |
| ResponseBody.ResponseBody.OnObject | internal/collector/responsebody.go:39-49 | A completed object is kept for its event, a second one fails it; outside event streams it is merged |
| ResponseBody.ResponseBody.Dispatch | internal/collector/responsebody.go:66-87 | The end of an event judges marker and object and starts afresh |
| ResponseBody.ResponseBody.SseByte | internal/collector/responsebody.go:88-123 | One byte of a normalized stream equals one step of the machine |
| ResponseBody.ResponseBody.RawByte | internal/collector/responsebody.go:128-140 | One byte as read equals one step with the deferred carriage return |
| ResponseBody.ResponseBody.Decide | internal/collector/responsebody.go:154-162 | The sample is emitted, or the reason for not doing so reported |
| ResponseBody.ResponseBody.NoteFieldSkip | internal/collector/responsebody.go:189-197 | A skipped field name is noticed |
| Usage.CountedOnce | internal/collector/proxy.go:197-219 | For both kinds of endpoint: the request counter rises at most once for a response, and exactly when it ended cleanly, its meaning counts and so does its sample (no invalid count, or, at a native endpoint, every field of its type and `done`); the result is that of the sample |
| Usage.SuccessObserves | internal/collector/usage.go:22-57 | The outcome is success exactly when nothing given is invalid and an input or output count is observed |
| Usage.Int64Means | internal/collector/usage.go:24-29 | Of a value in a sample, an integer is read if and only if the value is its decimal text, or minus zero, and it fits 64 bits |
| Usage.InputsHeld | internal/collector/usage.go:31-52 | The input count is n if and only if the first given of usage.prompt_tokens, usage.input_tokens and message.usage.input_tokens holds the decimal text of n |
| Usage.OutputsHeld | internal/collector/usage.go:31-52 | The same for usage.completion_tokens, usage.output_tokens and message.usage.output_tokens |
| Usage.OutcomeMeans | internal/collector/usage.go:21-57 | The outcome is failed if and only if one of these six is given and holds no count of 64 bits, and usage is absent if and only if none is given |
| Usage.ModelMeans | internal/collector/usage.go:12-20 | The model is the non-empty string at message.model, or else at model, or else the one requested |
| Usage.NumberHeld | internal/collector/proxy.go:205-208 | A number of a native response is the integer whose decimal text the field holds, or zero without the field |
| Usage.NativeMeans | internal/collector/proxy.go:205-217 | A native response fails if and only if one of seven given fields has not its type: a string, a truth value, or an integer of 64 bits; otherwise it succeeds if and only if it is done |
| Usage.UsageMetrics.RecordUsage | internal/collector/usage.go:11-58 | Nothing is counted if a given value is no count; otherwise the request is counted once, under the model and its metadata, and the first count of each side observed, which is the integer that its field holds |
| Usage.UsageMetrics.RecordGenerate | internal/collector/proxy.go:205-217 | A native response is counted once if its fields have their types and it is done, with its positive token counts, the integers that its fields hold, added up; otherwise nothing changes |
| Usage.FindCount | internal/collector/usage.go:42-52 | The inner loop finds the count of the first key that has one |
| Queue.Queue.Enqueue | internal/remotewrite/queue.go:55-83 | The ring represents what was accepted and has not left; a full queue evicts exactly its oldest batch, a closed one takes nothing |
| Queue.Queue.Dequeue | internal/remotewrite/queue.go:88-125 | The oldest batch is returned whenever there is one, closed or cancelled or not; deliveries are in order of acceptance |
| Queue.Queue.RemoveOldest | internal/remotewrite/queue.go:62-113 | Advancing the head modulo the capacity removes the oldest batch and clears its slot |
| Queue.Queue.AddNewest | internal/remotewrite/queue.go:72-76 | Writing at head plus size modulo the capacity appends a batch |
| Queue.Queue.Close | internal/remotewrite/queue.go:139-146 | Closing keeps what is queued |
| Queue.Queue.constructor | internal/remotewrite/queue.go:35-50 | A capacity below one becomes one |
| QueueSpec.DeliveriesGrow | internal/remotewrite/queue.go:55-83 | Accepting a batch changes nothing about what was delivered |
| BreakerSpec.PruningIsExact | internal/remotewrite/breaker.go:97-122 | Over every run with a clock that does not go back: the pruned failures are those of the full history since the last reset within the window, and stay below the threshold |
| BreakerSpec.OpensAtThreshold | internal/remotewrite/breaker.go:94-122 | A closed breaker opens at a failure if and only if the failures of the full history within the window reach the threshold |
| BreakerSpec.StepKept | internal/remotewrite/breaker.go:72-122 | Every call keeps the relation between the pruned and the full history |
| Breaker.CircuitBreaker.Allow | internal/remotewrite/breaker.go:74-82 | An open breaker becomes half-open once the cooldown is over; a call is refused only while open |
| Breaker.CircuitBreaker.RecordSuccess | internal/remotewrite/breaker.go:85-92 | Success closes and forgets failures |
| Breaker.CircuitBreaker.RecordFailure | internal/remotewrite/breaker.go:97-122 | A failure in half-open opens again; otherwise it is counted and may open |
| Breaker.CircuitBreaker.Prune | internal/remotewrite/breaker.go:108-114 | Compacting the failures in place keeps exactly those after the cutoff, in order |
| Breaker.CircuitBreaker.constructor | internal/remotewrite/breaker.go:44-70 | Settings that are not positive fall back to defaults |
| BreakerSpec.Defaults | internal/remotewrite/breaker.go:44-53 | A threshold below one becomes five, a window of zero or less a minute, a cooldown of zero or less half a minute, each by itself; other settings are kept |
| SenderSpec.BackoffRange | internal/remotewrite/sender.go:197-236 | If the draw does not panic, the wait lies between what the receiver asked for, capped, and the largest backoff, and above that floor within the range; below a largest backoff of 2^63 - 1 it does not panic |
| SenderSpec.DrawPanics | internal/remotewrite/sender.go:216-222 | The draw panics if and only if the largest backoff is 2^63 - 1 and the shift wraps to something not positive or reaches it |
| SenderSpec.PanicInput | internal/remotewrite/sender.go:216-222 | It does for a base of 2^62 ns at the second wait |
| SenderSpec.WaitRange | internal/remotewrite/sender.go:162-172 | The wait is at most the largest backoff and ends by the deadline; it falls short of what the receiver asked for only to end at the deadline; it is not negative if another attempt is made |
| SenderSpec.BackoffDoubles | internal/remotewrite/sender.go:190-236 | For a base below 2^47 ns the range is the base doubled for each attempt up to sixteen, capped |
| SenderSpec.RangeDoubles | internal/remotewrite/sender.go:197-219 | Below 2^47 ns the ranges start at the first backoff, one second by default, double up to the seventeenth and then stay, and are capped at the largest backoff, thirty seconds by default |
| SenderSpec.FullJitter | internal/remotewrite/sender.go:221-235 | For the right draw the wait is any number from the delay asked for, within the largest backoff, up to the end of the range, and no other number |
| SenderSpec.ShiftExact | internal/remotewrite/sender.go:216-219 | For any base the range is the doubled one if and only if the shift does not wrap to a positive number below the cap |
| SenderSpec.ShiftWraps | internal/remotewrite/sender.go:216-219 | With a base of 2^48 + 1 ns the range at the sixteenth doubling is 65536 ns, although the doubled base exceeds the cap |
| SenderSpec.AttemptsBounded | internal/remotewrite/sender.go:114-184 | Between one and the configured number of attempts, in order of time, and one retry fewer, or as many if a shutdown interrupts the wait |
| SenderSpec.WithinBudget | internal/remotewrite/sender.go:118-184 | Every attempt begins by the deadline and the batch is over one request timeout later at most |
| SenderSpec.LastResponse | internal/remotewrite/sender.go:130-187 | A batch is sent, or rejected, exactly if the last response says so |
| SenderSpec.EachAttempt | internal/remotewrite/sender.go:124-183 | Every attempt is followed by another one, at the end of the drawn wait cut at the deadline, if and only if its response may be retried, it was not the last one allowed, it did not end after the deadline, there is time left to wait if there is a deadline, the draw does not panic and no cancellation comes first; otherwise it is the last one and its response, or what was used up, decides the fate and the end of the batch |
| SenderSpec.BookedAs | internal/remotewrite/sender.go:100-188 | For every batch: it is dropped for the breaker if that has been open for less than the cooldown; otherwise booked as sent, rejected, exhausted or dropped at shutdown as its last attempt calls for, as exhausted if and only if that attempt could be retried and attempts or time were used up |
| SenderSpec.LeftBehind | internal/remotewrite/sender.go:130-153 | If the last response to a batch is a success, the breaker is closed and without failures; if it is a rejection, it is counted as a failure; otherwise the breaker is left as it was found, half-open after its cooldown |
| SenderSpec.StatusMeans | internal/remotewrite/wire.go:114-134 | A response is a success if and only if its status is in the 200s, a rejection if and only if it is 400, 401, 403 or 404, and otherwise retried; the delay it asks for counts only with a status in the 500s, 408 or 429 |
| SenderSpec.BookedOnce | internal/remotewrite/sender.go:100-188 | Over any batches the samples are booked exactly once, under one heading, unless the process crashes, which takes a largest backoff of 2^63 - 1 |
| SenderSpec.CooldownRespected | internal/remotewrite/breaker.go:74-122 | Over any run of the sender no attempt begins within the cooldown after an opening, and outside closed no failures are kept |
| SenderSpec.CooldownFromStart | internal/remotewrite/breaker.go:74-122 | So it is in every run of a new sender |
| SenderSpec.ProcessKeeps | internal/remotewrite/sender.go:100-188 | One batch keeps the invariant behind that |
| SenderSpec.OnlyRejectionsOpen | internal/remotewrite/sender.go:137-153 | From any state, without a rejection a run opens nothing: only an open breaker stays open, a closed one stays closed, and nothing is dropped for it, however often sending fails |
| SenderSpec.OpensByRejection | internal/remotewrite/sender.go:130-153 | A batch that was let through leaves the breaker open if and only if the last response to it is a rejection and that failure is enough to open it |
| SenderSpec.OnlyTheseStatusesOpen | internal/remotewrite/wire.go:114-134 | Over any run from any state, each opening of the breaker is at the end of a batch whose last status is 400, 401, 403 or 404 |
| SenderSpec.TheseStatusesCount | internal/remotewrite/wire.go:120-122 | Each of these is counted at once, without a retry; it opens a half-open breaker, and a closed one at the threshold |
| SenderSpec.ProbeConcludes | internal/remotewrite/breaker.go:74-122 | A batch leaves a half-open breaker half-open if and only if the last response to it is neither a success nor a rejection |
| SenderSpec.OneProbe | internal/remotewrite/breaker.go:15-17 | A half-open breaker sends at most one batch if and only if there are no two to send, or the first is sent or rejected (or the process crashes over it) |
| SenderSpec.TwoProbes | internal/remotewrite/breaker.go:72-82 | A run from the start in which two batches in a row are sent by a half-open breaker |
| SenderSpec.BatchBudget | internal/remotewrite/sender.go:100-188 | A batch takes at most the retry budget and one request timeout |
| Sender.Sender.Deliver | internal/remotewrite/sender.go:114-187 | The retry loop with its early exits makes exactly the attempts of the specification, and the bookings at its exits add up to exactly one |
| Sender.Sender.Answer | internal/remotewrite/sender.go:130-153 | A success, a rejection or a cancellation is booked and reported to the breaker; any other response changes nothing |
| Sender.Sender.Pause | internal/remotewrite/sender.go:155-183 | What follows a failed attempt is another one after the wait, or the end of the batch, and only a shutdown is booked here |
| Sender.Sender.ProcessBatch | internal/remotewrite/sender.go:100-188 | One batch changes clock, breaker, ledger and retries as specified |
| Sender.Sender.Run | internal/remotewrite/sender.go:83-97 | The loop delivers every queued batch, oldest first, and processes each once, cancelled or not; it returns with the queue empty when that is closed or the sender cancelled, and waits at an empty open queue |
| Pipeline.StepKeeps | internal/remotewrite/pusher.go:61-129 | Every step of flush loop, queue and sender conserves samples: accepted are queued, in hand, reported dropped or booked |
| Pipeline.RunKeeps | internal/remotewrite/pusher.go:61-129 | The same over every interleaving |
| Pipeline.NothingLost | internal/remotewrite/pusher.go:110-128 | In every run from the start, when the sender has returned the queue is empty and every accepted sample is accounted for, also after the drain timed out |
| Pipeline.NothingShutDown | internal/remotewrite/pusher.go:110-128 | In every run in which the drain does not time out, nothing is booked as dropped for the shutdown, and what was accepted and not evicted has been sent, rejected, given up or dropped by the breaker |
| Pipeline.DrainBounded | internal/remotewrite/sender.go:83-123 | After the queue is closed every run is bounded, and its attempts by the queue length times the attempts for a batch, plus those left for the batch in hand |
| Pipeline.NeverStuck | internal/remotewrite/queue.go:105-124 | After the queue is closed some step is possible until the flush loop has returned |
| Pipeline.BatchIsRun | internal/remotewrite/sender.go:100-188 | What the retry loop does with a batch is a run of the pipeline, ended by one entry in the ledger unless the process crashes; a shutdown in it is the drain timing out |
| PollerSpec.ScrapeAgrees | internal/collector/poller.go:75-133 | After a scrape with a successful list of running models, gauges and counters agree with the snapshot if and only if no newly loaded model is listed more than once |
| PollerSpec.AlwaysAgrees | internal/collector/poller.go:56-134 | After every sequence of scrapes, failed ones included, and metadata requests in between: they agree if and only if no list named a model twice that was new in it, as when all names are distinct, and the loaded models are those of the last successful list |
| PollerSpec.ScrapeShows | internal/collector/poller.go:75-133 | After a successful list of running models: the memory of each is that of its last listing, and zero for a vanished one; load events count the listings of new models after the first such scrape and unload events the vanished ones; what is known of a model is kept and of a new one fetched; with an inventory, metadata and series of exactly the models neither listed nor running are dropped |
| PollerSpec.UpShown | internal/collector/poller.go:56-70 | A scrape shows whether the service is up, and changes nothing else if it got no list of running models |
| PollerSpec.RunExcess | internal/collector/poller.go:75-107 | From any state in step with its gauge: what the counters miss never shrinks again over a run, and stays the same if and only if no list named a new model twice |
| PollerSpec.TwiceListed | internal/collector/poller.go:85-87 | A model listed twice when it appears is counted as two loads, and gauges and counters then disagree |
| PollerSpec.GaugeAgrees | internal/collector/poller.go:76-107 | The series at one are exactly the running models under their cached metadata |
| PollerSpec.CountersAgree | internal/collector/poller.go:85-105 | The loops never lower what loads less unloads exceed one for a loaded model and zero otherwise, and leave it as it was exactly if nothing new is listed twice |
| PollerSpec.PrunedAgrees | internal/collector/poller.go:109-130 | Pruning cache and gauges by inventory and running models changes nothing about that |
| Poller.Poller.Scrape | internal/collector/poller.go:56-134 | The method equals the scrape function, early returns included |
| Poller.Poller.Load | internal/collector/poller.go:75-96 | The loop over running models |
| Poller.Poller.Unload | internal/collector/poller.go:98-107 | The loop over vanished models, in whatever order a map yields them |
| Poller.Poller.PruneGauge | internal/collector/poller.go:139-161 | The series of absent models, and no others, are deleted |
| Poller.ModelCache.Get | internal/collector/modelcache.go:35-59 | An entry, once there, is returned and kept |
| Poller.ModelCache.Prune | internal/collector/modelcache.go:116-124 | The entries of absent models, and no others, are removed |
| Labels.MergeLabels | internal/remotewrite/convert.go:162-199 | The result is strictly ascending by name and holds, for each name, the first of metric name, metric labels, extra label and external labels |
| Labels.MergeUnique | internal/remotewrite/convert.go:153-199 | There is only one such label set |
| Labels.Precedence | internal/remotewrite/convert.go:162-199 | A name has a value in the merged labels if and only if it is the metric name's, or else that of the first metric label with this name, or else of the extra label, or else of the first external label |
| Labels.CanonicalUnique | internal/remotewrite/convert.go:160-161 | A label set in canonical form is determined by its labels |
| Labels.MergeInjective | internal/remotewrite/convert.go:162-199 | Series of the same shape that merge to the same labels are the same series, whatever the external labels |
| Labels.SortByName | internal/remotewrite/convert.go:197 | Sorting by name keeps the labels |
| Gather.GatherAll | internal/remotewrite/convert.go:41-125 | Every number gathered becomes one series with its canonical labels and its value, in order; values that are not numbers are left out |
| Gather.OnlyMetrics | internal/remotewrite/convert.go:48-125 | Every series sent is of a metric of a known kind, that is present and not NaN, in a family with a name, and has its labels |
| Gather.ValueSent | internal/remotewrite/convert.go:56-79 | A counter, gauge or untyped metric is sent with its value unless that is NaN |
| Gather.HistogramSent | internal/remotewrite/convert.go:80-102 | A histogram is sent with its count, its sum unless that is NaN, and every bucket with its count and bound; if none is infinite, one is sent that holds the whole count |
| Gather.SummarySent | internal/remotewrite/convert.go:103-121 | A summary is sent with its count, its sum and its quantiles, except those that are NaN |
| Gather.DistinctSeries | internal/remotewrite/convert.go:41-151 | No two series sent have the same labels, for families whose expanded names do not clash and whose metrics have the same label names but different values |
| Gather.OneInfiniteBucket | internal/remotewrite/convert.go:90-101 | A histogram has exactly one infinite bucket if and only if it came with at most one |
| Gather.BuildBuckets | internal/remotewrite/convert.go:90-101 | The loop over buckets adds the infinite one if it saw none |
| YamlLayout.LayoutRead | internal/config/yaml.go:47-171 | Every layout of a tree of the class is parsed to the tree if every line fits the line buffer, and refused otherwise: values plain, in single or in double quotes, any number of blanks after colons and dashes, blocks further in by any even number of blanks, comments, carriage returns, and lines that say nothing anywhere |
| YamlLayout.EntriesRead | internal/config/yaml.go:84-138 | However they are laid out, the lines of a map append its fields to the open node at any depth and leave nothing else open |
| YamlLayout.ItemsRead | internal/config/yaml.go:90-114 | The same for the lines of a list |
| YamlLayout.LineRefused | internal/config/yaml.go:75-126 | A line under an open node is refused if and only if its indent is odd, it is an item under fields or a field under items, or it is no item and has no colon; the error says which, and names the line |
| YamlLines.WrittenRead | internal/config/yaml.go:156-171 | A value written in double quotes, in single quotes, or plain is read as the value |
| YamlLines.LineRead | internal/config/yaml.go:60-82 | A line is read as the indent and the text that it holds, whatever blanks, comment or carriage return follow |
| YamlLines.SkippedMeans | internal/config/yaml.go:64-73 | A line is passed over if and only if it is white space, a comment, or a document separator, with a comment or without |
| YamlRoundTrip.RoundTrip | internal/config/yaml.go:47-144 | Parsing the canonical text of a tree returns the tree if and only if every line fits the line buffer; otherwise the file is refused |
| YamlExact.RoundTripExactly | internal/config/yaml.go:47-171 | For every tree: its canonical text reads back as the tree if and only if the tree is in the class (names trimmed, without colon, comment or line feed, not beginning with a hash, nor with a dash and a blank where they start a line; values without comment or line feed; blocks not empty; items colon-free texts or maps whose first field is a text) and every line fits |
| YamlExact.ReadBackIsGood | internal/config/yaml.go:47-171 | The converse of the round trip, for a line buffer of any size |
| YamlExact.RunCounted | internal/config/yaml.go:60-138 | Over any lines: the fields, and the items, of the tree are those that the lines add one by one |
| YamlImage.ParsedIsFair | internal/config/yaml.go:47-171 | Whatever the text: names and values in the tree could stand on a line, no block in it is empty, and items are colon-free texts or maps that begin with a text |
| YamlRoundTrip.PrintInjective | internal/config/yaml.go:47-144 | Different trees have different canonical texts, however long their lines |
| Yaml.AlwaysSound | internal/config/yaml.go:84-138 | For every text: the indents on the frame stack are even and strictly increasing, the root is a map, and every node below the top has a last child for the node above to be put back into |
| Yaml.StepSound | internal/config/yaml.go:60-138 | Every line keeps that |
| Yaml.ParsedIsMap | internal/config/yaml.go:53-143 | A file is refused, or its tree is a map |
| Yaml.FirstBadLine | internal/config/yaml.go:79-119 | A refusal is that of the first bad line, and its number, if it has one, is that line's |
| Yaml.ParseTree | internal/config/yaml.go:47-144 | The line loop with its popping loop computes the parse |
| YamlText.ClassifyLine | internal/config/yaml.go:64-82 | An indented line is read back as it stands if its text is trimmed, starts no comment and is no separator |
| YamlText.EntrySplits | internal/config/yaml.go:148-154 | A field printed with a quoted value splits into its name and that value |
| YamlText.ScanJoined | internal/config/yaml.go:56-62 | Joining lines and scanning them again is the identity |
| YamlTree.EntriesFeedFree | internal/config/yaml.go:60-62 | No printed line holds a line feed, so the canonical text has exactly the printed lines |

## Findings

Where the code does not do what its comments and documents say, the model follows the code. For
each such property there is an input that shows it, and the exact condition under which it holds.

| property | source | input | exact condition |
|---|---|---|---|
| After the cooldown the breaker probes once | internal/remotewrite/breaker.go:15-17, docs/remote-write.md:123-124 | SenderSpec.TwoProbes: two batches in a row time out | SenderSpec.OneProbe, SenderSpec.ProbeConcludes: there are no two batches to send, or the last response to the first is a success or a rejection (or the process crashes over it) |
| The wait is drawn from `base * 2^attempt`, capped | internal/remotewrite/sender.go:190-219 | SenderSpec.ShiftWraps: a base of 2^48 + 1 ns | SenderSpec.ShiftExact: the 64-bit shift does not wrap to a positive number below the cap |
| The clamped exponent keeps the shift safe | internal/remotewrite/sender.go:207-222 | SenderSpec.PanicInput: a base of 2^62 ns and a largest backoff of 2^63 - 1 ns | SenderSpec.DrawPanics: the largest backoff is below 2^63 - 1, or the shift gives a positive number below it |
| Loads less unloads is one for a loaded model | internal/collector/poller.go:85-105 | PollerSpec.TwiceListed: a new model is listed twice | PollerSpec.ScrapeAgrees, and over runs PollerSpec.AlwaysAgrees: no newly loaded model is listed more than once |

## Left out

- Decoded strings: a character outside ASCII is represented by U+FFFD, a surrogate pair by two of them. Field names and types are only compared with ASCII text and searched for dots, so nothing is lost there.
- Usage.UsageMetrics.RecordUsage: model names are decoded likewise, so labels of models that differ only outside ASCII coincide, in RecordGenerate too.
- UTF-8: as in the code, a string holds any bytes from 0x80 up, so the JSON texts accepted need not be valid UTF-8 (section 8.1 of RFC 8259).
- Whole-token validation (`json.Valid`) is modelled for tokens that do not begin with white space or a bracket, which are the only ones it is given.
- The emit callback of the recognizer is a log of maps (`emitted`) that the body reads after each byte.
- Event streams follow the WHATWG HTML standard, section 9.2, only as far as the code does: an unfinished event is dispatched at the end of input, a `data` line without a colon is ignored, a byte order mark is not stripped, and marker text on several lines is joined without a line feed.
- The duration histograms and throughput gauges of the native endpoints, and the forwarding of bytes to the client.
- Locks, condition variables and goroutines: each method of the queue and of the breaker is one atomic step.
- A panic in the random draw ends the whole process: the sender takes no further steps, and the pipeline has no steps after it.
- Several endpoints: one queue and one sender are modelled; the flush loop offers each batch to every queue alike.
- Time passes only during requests and waits; latency and last-send metrics are not modelled.
- The Retry-After header, HTTP, TLS, headers, protobuf and snappy encoding: a response status with a requested delay, or an encoding failure, is an input.
- The metadata service: `fetch` is a function of the name for each scrape, and concurrent fetches are atomic.
- PollerSpec.AlwaysAgrees: memory gauges and event counters are not part of the agreement; PollerSpec.ScrapeShows states them for one scrape.
- Gauges of other collectors that the poller also prunes.
- Floating point: sample values are reals that are only copied; bucket bounds and quantiles are the texts they are written as.
- `NewLabels` (sorting a map), which the merging does not depend on.
- Sorting in place by the library is an insertion sort; names are compared by code point, which is the order of their UTF-8 bytes.
- Yaml.ParseTree: nodes are values on the frame stack, put back into their parents when popped, where the source keeps pointers; the tree is the same because an open node is always the last child.
- Configuration text that is not valid UTF-8.
- Reading typed settings from the configuration tree and validating them; the GPU collector; log redaction.
